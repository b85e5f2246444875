/** The accuracy and token gate (crates/code-bench/src/gate.rs). Counts are
    unbounded; every comparison is the source's. */
module Gate {
  import opened Base
  import opened Folds
  import opened Text
  import opened Metrics
  import opened Runner

  const PRECISION_DROP_TOLERANCE: nat := 0
  const RECALL_DROP_TOLERANCE: nat := 0
  const BYTES_PER_CORRECT_RISE_TOLERANCE: nat := 50
  const MAX_BYTES_RISE_PER_GAIN_POINT: nat := 200
  const BASIS_POINTS_PER_POINT: nat := 100

  datatype Waiver = Waiver(repo: string, kind: Option<QueryKind>, reason: string)

  datatype Baseline = Baseline(tasksVersion: nat, waivers: seq<Waiver>, repos: seq<RepoReport>)

  datatype FloorCell = FloorCell(repo: string, kind: QueryKind, precisionBps: nat, recallBps: nat)

  datatype Floor = Floor(cells: seq<FloorCell>)

  datatype Override = Override(
    id: string, reason: string, expires: string, repo: Option<string>, kind: Option<QueryKind>,
    precisionDropBps: nat, recallDropBps: nat)

  datatype Metric = PrecisionMetric | RecallMetric | Bytes | TokensMetric

  datatype Against = TheBaseline | TheFloor

  datatype Failure =
    | VersionMismatch(baseline: nat, report: nat)
    | RepoFailed(repo: string, reason: string)
    | RepoMissing(repo: string)
    | Unmeasured(repo: string, kind: QueryKind, tasks: nat)
    | Regression(repo: string, kind: QueryKind, metric: Metric, against: Against, observed: nat, allowed: nat)
    | TaskRemoved(id: string)

  /** `priorTaskIds` lists the prior ids in order. */
  datatype Inputs = Inputs(
    baseline: Baseline, floor: Floor, overrides: seq<Override>, report: Report, runDate: string,
    priorTaskIds: seq<string>, taskIds: set<string>, minTasksPerCell: nat)

  function FindRepo(repos: seq<RepoReport>, name: string): Option<RepoReport> {
    if repos == [] then None else if repos[0].repo == name then Some(repos[0]) else FindRepo(repos[1..], name)
  }

  function FindCell(cells: seq<Cell>, kind: QueryKind): Option<Cell> {
    if cells == [] then None else if cells[0].kind == kind then Some(cells[0]) else FindCell(cells[1..], kind)
  }

  function FindFloor(cells: seq<FloorCell>, repo: string, kind: QueryKind): Option<FloorCell> {
    if cells == [] then None
    else if cells[0].repo == repo && cells[0].kind == kind then Some(cells[0])
    else FindFloor(cells[1..], repo, kind)
  }

  /** The first cell of this kind in the first row of this repo. */
  function BaselineCell(b: Baseline, repo: string, kind: QueryKind): Option<Cell> {
    match FindRepo(b.repos, repo)
    case Some(found) => FindCell(found.cells, kind)
    case None => None
  }

  /** The last day of an override is inclusive. */
  predicate Unexpired(o: Override, runDate: string) {
    LexLeq(runDate, o.expires)
  }

  function Active(overrides: seq<Override>, id: string, runDate: string): Option<Override> {
    if overrides == [] then None
    else if overrides[0].id == id && Unexpired(overrides[0], runDate) then Some(overrides[0])
    else Active(overrides[1..], id, runDate)
  }

  /** The drops the unexpired overrides of one repo and kind add up to. */
  function Delta(overrides: seq<Override>, repo: string, kind: QueryKind, runDate: string): (nat, nat) {
    if overrides == [] then (0, 0)
    else
      var (o, (p, r)) := (overrides[0], Delta(overrides[1..], repo, kind, runDate));
      if Unexpired(o, runDate) && o.repo == Some(repo) && o.kind == Some(kind)
      then (p + o.precisionDropBps, r + o.recallDropBps) else (p, r)
  }

  predicate Waived(b: Baseline, repo: string, kind: Option<QueryKind>) {
    exists k :: 0 <= k < |b.waivers| && b.waivers[k].repo == repo && b.waivers[k].kind == kind
  }

  function Allowed(gain: nat): nat {
    if gain > 0 then gain * MAX_BYTES_RISE_PER_GAIN_POINT / BASIS_POINTS_PER_POINT
    else BYTES_PER_CORRECT_RISE_TOLERANCE
  }

  predicate TooDear(b: nat, c: nat, allowed: nat) {
    c * BASIS_POINTS_PER_UNIT > b * (BASIS_POINTS_PER_UNIT + allowed)
  }

  /** A rise past its allowance is a rise: the subtraction cannot underflow. */
  lemma TooDearRises(b: nat, c: nat, allowed: nat)
    requires TooDear(b, c, allowed)
    ensures c > b
  {
    assert b * (BASIS_POINTS_PER_UNIT + allowed) == b * BASIS_POINTS_PER_UNIT + b * allowed;
  }

  function DivCeil(num: nat, den: nat): nat
    requires den > 0
  {
    (num + den - 1) / den
  }

  /** Observed and allowed rise of one cost per correct result. */
  function Rise(b: nat, c: nat, allowed: nat): Option<(nat, nat)> {
    if TooDear(b, c, allowed) then
      TooDearRises(b, c, allowed);
      Some((DivCeil((c - b) * BASIS_POINTS_PER_UNIT, Max(b, 1)), allowed))
    else None
  }

  function CostOf(cell: Cell, metric: Metric): nat {
    if metric == TokensMetric then cell.tokens else cell.bytes
  }

  function RiseFailure(base: Cell, cell: Cell, gain: nat, metric: Metric): Option<(nat, nat)> {
    match (CostPerCorrect(CostOf(base, metric), base.correct), CostPerCorrect(CostOf(cell, metric), cell.correct))
    case (Some(b), Some(c)) => Rise(b, c, Allowed(gain))
    case _ => None
  }

  function Over(repo: string, kind: QueryKind, metric: Metric, against: Against, observed: nat,
                allowed: nat): seq<Failure>
  {
    if observed > allowed then [Regression(repo, kind, metric, against, observed, allowed)] else []
  }

  function CostFailure(repo: string, base: Cell, cell: Cell, gain: nat, metric: Metric): seq<Failure> {
    match RiseFailure(base, cell, gain, metric)
    case Some(rise) => Over(repo, cell.kind, metric, TheBaseline, rise.0, rise.1)
    case None => []
  }

  function GainOf(base: Cell, cell: Cell): nat {
    SatSub(cell.precisionBps.GetOr(0), base.precisionBps.GetOr(0))
    + SatSub(cell.recallBps.GetOr(0), base.recallBps.GetOr(0))
  }

  function BaselineFailures(repo: string, base: Cell, cell: Cell, dp: nat, dr: nat): seq<Failure> {
    var (p, r) := (cell.precisionBps.GetOr(0), cell.recallBps.GetOr(0));
    Over(repo, cell.kind, PrecisionMetric, TheBaseline, SatSub(base.precisionBps.GetOr(0), p),
      PRECISION_DROP_TOLERANCE + dp)
    + Over(repo, cell.kind, RecallMetric, TheBaseline, SatSub(base.recallBps.GetOr(0), r), RECALL_DROP_TOLERANCE + dr)
    + CostFailure(repo, base, cell, GainOf(base, cell), Bytes)
    + CostFailure(repo, base, cell, GainOf(base, cell), TokensMetric)
  }

  function FloorFailures(repo: string, floor: FloorCell, cell: Cell, dp: nat, dr: nat): seq<Failure> {
    Over(repo, cell.kind, PrecisionMetric, TheFloor, SatSub(floor.precisionBps, cell.precisionBps.GetOr(0)), dp)
    + Over(repo, cell.kind, RecallMetric, TheFloor, SatSub(floor.recallBps, cell.recallBps.GetOr(0)), dr)
  }

  /** The failures of one measured cell, given its references and its drops. */
  function CellFailuresWith(
    repo: string, cell: Cell, base: Option<Cell>, floor: Option<FloorCell>, dp: nat, dr: nat): seq<Failure>
  {
    (if base.Some? then BaselineFailures(repo, base.value, cell, dp, dr) else [])
    + (if floor.Some? then FloorFailures(repo, floor.value, cell, dp, dr) else [])
  }

  function CellFailures(i: Inputs, repo: string, cell: Cell): seq<Failure> {
    var (dp, dr) := Delta(i.overrides, repo, cell.kind, i.runDate);
    CellFailuresWith(repo, cell, BaselineCell(i.baseline, repo, cell.kind),
      FindFloor(i.floor.cells, repo, cell.kind), dp, dr)
  }

  function OneCell(i: Inputs, repo: string, cell: Cell): seq<Failure> {
    if cell.tasks >= i.minTasksPerCell then CellFailures(i, repo, cell)
    else if Waived(i.baseline, repo, Some(cell.kind)) then []
    else [Unmeasured(repo, cell.kind, cell.tasks)]
  }

  function CellFinder(i: Inputs, repo: string): Cell -> seq<Failure> {
    (cell: Cell) => OneCell(i, repo, cell)
  }

  function CellsFailures(i: Inputs, repo: string, cells: seq<Cell>): seq<Failure> {
    Each(cells, CellFinder(i, repo))
  }

  function RepoFailures(i: Inputs, row: RepoReport): seq<Failure> {
    if Waived(i.baseline, row.repo, None) then []
    else
      match row.status
      case Failed(reason) => [RepoFailed(row.repo, reason)]
      case Measured => CellsFailures(i, row.repo, row.cells)
  }

  predicate Reported(i: Inputs, repo: string) {
    exists k :: 0 <= k < |i.report.repos| && i.report.repos[k].repo == repo
  }

  function MissingFailure(i: Inputs, base: RepoReport): seq<Failure> {
    if Reported(i, base.repo) || Waived(i.baseline, base.repo, None) then [] else [RepoMissing(base.repo)]
  }

  /** A row of the report, or a row of the baseline. */
  datatype Side = InReport | InBaseline

  function RowFailures(i: Inputs, side: Side, row: RepoReport): seq<Failure> {
    match side
    case InReport => RepoFailures(i, row)
    case InBaseline => MissingFailure(i, row)
  }

  function RowFinder(i: Inputs, side: Side): RepoReport -> seq<Failure> {
    (row: RepoReport) => RowFailures(i, side, row)
  }

  function RowsFailures(i: Inputs, side: Side, rows: seq<RepoReport>): seq<Failure> {
    Each(rows, RowFinder(i, side))
  }

  function VersionFailure(i: Inputs): seq<Failure> {
    if i.baseline.tasksVersion != i.report.tasksVersion
    then [VersionMismatch(i.baseline.tasksVersion, i.report.tasksVersion)] else []
  }

  function RemovedFailure(i: Inputs, id: string): seq<Failure> {
    if id !in i.taskIds && Active(i.overrides, "task-removed:" + id, i.runDate).None? then [TaskRemoved(id)] else []
  }

  function RemovedFinder(i: Inputs): string -> seq<Failure> {
    (id: string) => RemovedFailure(i, id)
  }

  function RemovedFailures(i: Inputs, ids: seq<string>): seq<Failure> {
    Each(ids, RemovedFinder(i))
  }

  /** The failures that belong to no repo. */
  function GlobalFailures(i: Inputs): seq<Failure> {
    VersionFailure(i) + RemovedFailures(i, i.priorTaskIds)
  }

  /** Every failure of the run, in the order they are found. */
  function Failures(i: Inputs): seq<Failure> {
    GlobalFailures(i) + RowsFailures(i, InReport, i.report.repos) + RowsFailures(i, InBaseline, i.baseline.repos)
  }

  // ---- The methods that collect the failures.

  method PushOver(found: seq<Failure>, repo: string, kind: QueryKind, metric: Metric, against: Against,
                  observed: nat, allowed: nat)
    returns (more: seq<Failure>)
    ensures more == found + Over(repo, kind, metric, against, observed, allowed)
  {
    more := found;
    if observed > allowed {
      more := more + [Regression(repo, kind, metric, against, observed, allowed)];
    }
  }

  method CollectBaseline(repo: string, base: Cell, cell: Cell, dp: nat, dr: nat) returns (found: seq<Failure>)
    ensures found == BaselineFailures(repo, base, cell, dp, dr)
  {
    var (p, r) := (cell.precisionBps.GetOr(0), cell.recallBps.GetOr(0));
    var (bp, br) := (base.precisionBps.GetOr(0), base.recallBps.GetOr(0));
    found := PushOver([], repo, cell.kind, PrecisionMetric, TheBaseline, SatSub(bp, p), PRECISION_DROP_TOLERANCE + dp);
    found := PushOver(found, repo, cell.kind, RecallMetric, TheBaseline, SatSub(br, r), RECALL_DROP_TOLERANCE + dr);
    found := PushCosts(found, repo, base, cell, SatSub(p, bp) + SatSub(r, br));
  }

  method PushCosts(found: seq<Failure>, repo: string, base: Cell, cell: Cell, gain: nat) returns (more: seq<Failure>)
    ensures more == found
      + CostFailure(repo, base, cell, gain, Bytes) + CostFailure(repo, base, cell, gain, TokensMetric)
  {
    more := found;
    var metrics := [Bytes, TokensMetric];
    for k := 0 to 2
      invariant k == 0 ==> more == found
      invariant k == 1 ==> more == found + CostFailure(repo, base, cell, gain, Bytes)
      invariant k == 2 ==>
        more == found + CostFailure(repo, base, cell, gain, Bytes) + CostFailure(repo, base, cell, gain, TokensMetric)
    {
      var rise := RiseFailure(base, cell, gain, metrics[k]);
      if rise.Some? {
        more := PushOver(more, repo, cell.kind, metrics[k], TheBaseline, rise.value.0, rise.value.1);
      }
    }
  }

  method CollectFloor(repo: string, floor: FloorCell, cell: Cell, dp: nat, dr: nat) returns (found: seq<Failure>)
    ensures found == FloorFailures(repo, floor, cell, dp, dr)
  {
    var (p, r) := (cell.precisionBps.GetOr(0), cell.recallBps.GetOr(0));
    found := PushOver([], repo, cell.kind, PrecisionMetric, TheFloor, SatSub(floor.precisionBps, p), dp);
    found := PushOver(found, repo, cell.kind, RecallMetric, TheFloor, SatSub(floor.recallBps, r), dr);
  }

  method CollectCell(i: Inputs, repo: string, cell: Cell) returns (found: seq<Failure>)
    ensures found == CellFailures(i, repo, cell)
  {
    var (dp, dr) := Delta(i.overrides, repo, cell.kind, i.runDate);
    found := [];
    var base := BaselineCell(i.baseline, repo, cell.kind);
    if base.Some? {
      found := CollectBaseline(repo, base.value, cell, dp, dr);
    }
    var floor := FindFloor(i.floor.cells, repo, cell.kind);
    if floor.Some? {
      var more := CollectFloor(repo, floor.value, cell, dp, dr);
      found := found + more;
    }
  }

  method CollectOneCell(i: Inputs, repo: string, cell: Cell) returns (found: seq<Failure>)
    ensures found == OneCell(i, repo, cell)
  {
    found := [];
    if cell.tasks >= i.minTasksPerCell {
      found := CollectCell(i, repo, cell);
    } else if !Waived(i.baseline, repo, Some(cell.kind)) {
      found := [Unmeasured(repo, cell.kind, cell.tasks)];
    }
  }

  method CollectRepo(i: Inputs, row: RepoReport) returns (found: seq<Failure>)
    ensures found == RepoFailures(i, row)
  {
    if Waived(i.baseline, row.repo, None) {
      return [];
    }
    if row.status.Failed? {
      return [RepoFailed(row.repo, row.status.reason)];
    }
    found := [];
    ghost var finder := CellFinder(i, row.repo);
    for k := 0 to |row.cells|
      invariant found == Each(row.cells[..k], finder)
    {
      EachMore(row.cells, k, finder);
      var more := CollectOneCell(i, row.repo, row.cells[k]);
      found := found + more;
    }
    assert row.cells[..|row.cells|] == row.cells;
  }

  method CollectRemoved(i: Inputs) returns (found: seq<Failure>)
    ensures found == RemovedFailures(i, i.priorTaskIds)
  {
    found := [];
    ghost var finder := RemovedFinder(i);
    for k := 0 to |i.priorTaskIds|
      invariant found == Each(i.priorTaskIds[..k], finder)
    {
      EachMore(i.priorTaskIds, k, finder);
      var id := i.priorTaskIds[k];
      if id !in i.taskIds && Active(i.overrides, "task-removed:" + id, i.runDate).None? {
        found := found + [TaskRemoved(id)];
      }
    }
    assert i.priorTaskIds[..|i.priorTaskIds|] == i.priorTaskIds;
  }

  method CollectReported(i: Inputs, repos: seq<RepoReport>) returns (found: seq<Failure>)
    ensures found == RowsFailures(i, InReport, repos)
  {
    found := [];
    ghost var finder := RowFinder(i, InReport);
    for k := 0 to |repos|
      invariant found == Each(repos[..k], finder)
    {
      EachMore(repos, k, finder);
      var more := CollectRepo(i, repos[k]);
      found := found + more;
    }
    assert repos[..|repos|] == repos;
  }

  method CollectMissing(i: Inputs, bases: seq<RepoReport>) returns (found: seq<Failure>)
    ensures found == RowsFailures(i, InBaseline, bases)
  {
    found := [];
    ghost var finder := RowFinder(i, InBaseline);
    for k := 0 to |bases|
      invariant found == Each(bases[..k], finder)
    {
      EachMore(bases, k, finder);
      if !Reported(i, bases[k].repo) && !Waived(i.baseline, bases[k].repo, None) {
        found := found + [RepoMissing(bases[k].repo)];
      }
    }
    assert bases[..|bases|] == bases;
  }

  /** The judge: no failure, and the gate passes. */
  method Evaluate(i: Inputs) returns (found: seq<Failure>)
    ensures found == Failures(i)
  {
    found := [];
    if i.baseline.tasksVersion != i.report.tasksVersion {
      found := found + [VersionMismatch(i.baseline.tasksVersion, i.report.tasksVersion)];
    }
    var removed := CollectRemoved(i);
    var reported := CollectReported(i, i.report.repos);
    var missing := CollectMissing(i, i.baseline.repos);
    found := found + removed + reported + missing;
  }
}
