/** What each failure of the judge says, number by number. */
module GateMeaning {
  import opened Base
  import opened Folds
  import opened Metrics
  import opened Runner
  import opened Gate
  import opened GateRules

  /** The quotient of a rise and its base, rounded up. */
  ghost predicate RoundedUp(observed: nat, rise: nat, base: nat) {
    rise <= observed * base && (observed > 0 ==> (observed - 1) * base < rise)
  }

  lemma DivCeilRoundsUp(rise: nat, base: nat, k: nat)
    requires base > 0
    ensures DivCeil(rise, base) == k <==> RoundedUp(k, rise, base)
  {
    CeilExceeds(rise, base, k);
    if k > 0 {
      CeilExceeds(rise, base, k - 1);
    }
  }

  /** A share fell by more than its allowance. */
  predicate Fell(from: nat, to: nat, observed: nat, allowed: nat, drop: nat) {
    from == to + observed && observed > allowed && allowed == drop
  }

  /** A cost per correct result rose by more than its allowance. */
  ghost predicate Rose(base: Cell, cell: Cell, metric: Metric, observed: nat, allowed: nat) {
    && base.correct > 0 && cell.correct > 0
    && observed > allowed && allowed == Allowed(GainOf(base, cell))
    && var (was, now) := if metric == TokensMetric then (base.tokens, cell.tokens) else (base.bytes, cell.bytes);
       var (b, c) := (RoundDiv(was, base.correct), RoundDiv(now, cell.correct));
       && c > b
       && c * BASIS_POINTS_PER_UNIT > b * (BASIS_POINTS_PER_UNIT + allowed)
       && RoundedUp(observed, (c - b) * BASIS_POINTS_PER_UNIT, Max(b, 1))
  }

  ghost predicate BaselineSays(base: Cell, cell: Cell, metric: Metric, observed: nat, allowed: nat, dp: nat, dr: nat) {
    if metric == PrecisionMetric then
      Fell(base.precisionBps.GetOr(0), cell.precisionBps.GetOr(0), observed, allowed, dp)
    else if metric == RecallMetric then Fell(base.recallBps.GetOr(0), cell.recallBps.GetOr(0), observed, allowed, dr)
    else Rose(base, cell, metric, observed, allowed)
  }

  ghost predicate FloorSays(floor: FloorCell, cell: Cell, metric: Metric, observed: nat, allowed: nat, dp: nat,
                            dr: nat)
  {
    if metric == PrecisionMetric then Fell(floor.precisionBps, cell.precisionBps.GetOr(0), observed, allowed, dp)
    else metric == RecallMetric && Fell(floor.recallBps, cell.recallBps.GetOr(0), observed, allowed, dr)
  }

  /** What a regression of this cell says, given its references and its drops. */
  ghost predicate Regressed(repo: string, cell: Cell, base: Option<Cell>, floor: Option<FloorCell>, dp: nat, dr: nat,
                            f: Failure)
  {
    && f.Regression? && f.repo == repo && f.kind == cell.kind
    && if f.against == TheBaseline
       then base.Some? && BaselineSays(base.value, cell, f.metric, f.observed, f.allowed, dp, dr)
       else floor.Some? && FloorSays(floor.value, cell, f.metric, f.observed, f.allowed, dp, dr)
  }

  lemma CostSays(repo: string, base: Cell, cell: Cell, metric: Metric, f: Failure)
    ensures f in CostFailure(repo, base, cell, GainOf(base, cell), metric) <==>
      && f.Regression? && f.repo == repo && f.kind == cell.kind && f.metric == metric && f.against == TheBaseline
      && Rose(base, cell, metric, f.observed, f.allowed)
  {
    if base.correct > 0 && cell.correct > 0 {
      var (b, c) := (RoundDiv(CostOf(base, metric), base.correct), RoundDiv(CostOf(cell, metric), cell.correct));
      var allowed := Allowed(GainOf(base, cell));
      if TooDear(b, c, allowed) {
        TooDearRises(b, c, allowed);
        var (rise, per) := ((c - b) * BASIS_POINTS_PER_UNIT, Max(b, 1));
        if f.Regression? {
          DivCeilRoundsUp(rise, per, f.observed);
        }
      }
    }
  }

  lemma BaselineFailuresSay(repo: string, base: Cell, cell: Cell, dp: nat, dr: nat, f: Failure)
    ensures f in BaselineFailures(repo, base, cell, dp, dr) <==>
      && f.Regression? && f.repo == repo && f.kind == cell.kind && f.against == TheBaseline
      && BaselineSays(base, cell, f.metric, f.observed, f.allowed, dp, dr)
  {
    CostSays(repo, base, cell, Bytes, f);
    CostSays(repo, base, cell, TokensMetric, f);
  }

  lemma FloorFailuresSay(repo: string, floor: FloorCell, cell: Cell, dp: nat, dr: nat, f: Failure)
    ensures f in FloorFailures(repo, floor, cell, dp, dr) <==>
      && f.Regression? && f.repo == repo && f.kind == cell.kind && f.against == TheFloor
      && FloorSays(floor, cell, f.metric, f.observed, f.allowed, dp, dr)
  {
  }

  lemma CellFailuresSay(repo: string, cell: Cell, base: Option<Cell>, floor: Option<FloorCell>, dp: nat, dr: nat,
                        f: Failure)
    ensures f in CellFailuresWith(repo, cell, base, floor, dp, dr) <==> Regressed(repo, cell, base, floor, dp, dr, f)
  {
    if base.Some? {
      BaselineFailuresSay(repo, base.value, cell, dp, dr, f);
    }
    if floor.Some? {
      FloorFailuresSay(repo, floor.value, cell, dp, dr, f);
    }
  }

  /** What a cell of a measured row can fail with. */
  ghost predicate CellSays(i: Inputs, repo: string, cell: Cell, f: Failure) {
    if cell.tasks < i.minTasksPerCell then
      f == Unmeasured(repo, cell.kind, cell.tasks) && !Waived(i.baseline, repo, Some(cell.kind))
    else
      var (dp, dr) := Drops(i.overrides, repo, cell.kind, i.runDate);
      Regressed(repo, cell, BaselineCell(i.baseline, repo, cell.kind),
        FindFloor(i.floor.cells, repo, cell.kind), dp, dr, f)
  }

  lemma OneCellSays(i: Inputs, repo: string, cell: Cell, f: Failure)
    ensures f in OneCell(i, repo, cell) <==> CellSays(i, repo, cell, f)
  {
    var (dp, dr) := Drops(i.overrides, repo, cell.kind, i.runDate);
    DeltaIsGranted(i.overrides, repo, cell.kind, i.runDate);
    CellFailuresSay(repo, cell, BaselineCell(i.baseline, repo, cell.kind),
      FindFloor(i.floor.cells, repo, cell.kind), dp, dr, f);
  }

  lemma CellsSay(i: Inputs, repo: string, cells: seq<Cell>, f: Failure)
    ensures f in CellsFailures(i, repo, cells) <==> exists cell :: cell in cells && CellSays(i, repo, cell, f)
  {
    var finder := CellFinder(i, repo);
    EachHolds(cells, finder, f);
    forall cell ensures f in finder(cell) <==> CellSays(i, repo, cell, f) {
      OneCellSays(i, repo, cell, f);
    }
  }

  /** What a row of the report, or of the baseline, can fail with. */
  ghost predicate RowSays(i: Inputs, side: Side, row: RepoReport, f: Failure) {
    && !Waived(i.baseline, row.repo, None)
    && match side
       case InBaseline => f == RepoMissing(row.repo) && !Reported(i, row.repo)
       case InReport =>
         if row.status.Failed? then f == RepoFailed(row.repo, row.status.reason)
         else exists cell :: cell in row.cells && CellSays(i, row.repo, cell, f)
  }

  lemma OneRowSays(i: Inputs, side: Side, row: RepoReport, f: Failure)
    ensures f in RowFailures(i, side, row) <==> RowSays(i, side, row, f)
  {
    CellsSay(i, row.repo, row.cells, f);
  }

  lemma RowsSay(i: Inputs, side: Side, rows: seq<RepoReport>, f: Failure)
    ensures f in RowsFailures(i, side, rows) <==> exists row :: row in rows && RowSays(i, side, row, f)
  {
    var finder := RowFinder(i, side);
    EachHolds(rows, finder, f);
    forall row ensures f in finder(row) <==> RowSays(i, side, row, f) {
      OneRowSays(i, side, row, f);
    }
  }

  /** A failure that belongs to no repo. */
  ghost predicate GlobalSays(i: Inputs, f: Failure) {
    || (f == VersionMismatch(i.baseline.tasksVersion, i.report.tasksVersion)
        && i.baseline.tasksVersion != i.report.tasksVersion)
    || RemovedSays(i, i.priorTaskIds, f)
  }

  ghost predicate RemovedSays(i: Inputs, ids: seq<string>, f: Failure) {
    f.TaskRemoved? && f.id in ids && f.id !in i.taskIds && Active(i.overrides, "task-removed:" + f.id, i.runDate).None?
  }

  lemma RemovedSay(i: Inputs, ids: seq<string>, f: Failure)
    ensures f in RemovedFailures(i, ids) <==> RemovedSays(i, ids, f)
  {
    var finder := RemovedFinder(i);
    EachHolds(ids, finder, f);
    forall id ensures f in finder(id) <==> f in RemovedFailure(i, id) {
    }
  }

  /** The judge is sound and complete, number by number: a failure is reported
      exactly when what it says is so. */
  lemma FailuresSayWhatIsSo(i: Inputs, f: Failure)
    ensures f in Failures(i) <==>
      || GlobalSays(i, f)
      || (exists row :: row in i.report.repos && RowSays(i, InReport, row, f))
      || (exists row :: row in i.baseline.repos && RowSays(i, InBaseline, row, f))
  {
    RemovedSay(i, i.priorTaskIds, f);
    RowsSay(i, InReport, i.report.repos, f);
    RowsSay(i, InBaseline, i.baseline.repos, f);
  }
}
