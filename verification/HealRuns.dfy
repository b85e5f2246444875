/** Heal runs that do not overlap, by any binaries and triggers. */
module HealRuns {
  import opened Base
  import opened Text
  import opened Store
  import opened Heal
  import Versions

  datatype Run = Run(trigger: Trigger, now: nat, running: string, world: World)

  function RowsAfter(rows: Rows, run: Run): Rows {
    Healed(rows, run.trigger, run.now, run.running, run.world).0
  }

  function OutcomeOf(rows: Rows, run: Run): Outcome {
    Healed(rows, run.trigger, run.now, run.running, run.world).1
  }

  /** The rows before run `k`, for any effect of a run. */
  function Along(rows: Rows, runs: seq<Run>, step: (Rows, Run) -> Rows, k: nat): Rows
    requires k <= |runs|
  {
    if k == 0 then rows else step(Along(rows, runs, step, k - 1), runs[k - 1])
  }

  /** The rows before run `k`. */
  function RowsAt(rows: Rows, runs: seq<Run>, k: nat): Rows
    requires k <= |runs|
  {
    Along(rows, runs, RowsAfter, k)
  }

  function Binary(rows: Rows): Option<string> {
    Filled(rows, BINARY_KEY)
  }

  function FailedAt(rows: Rows): Option<nat> {
    ParseRow(Filled(rows, FAILED_AT_KEY), U64_LIMIT)
  }

  /** The run reached a readable store that no newer binary recorded. */
  predicate Admitted(rows: Rows, run: Run) {
    && !run.world.refused && run.world.readable
    && CompareWith(FromRows(rows, run.world.legacy), run.running) != Greater
  }

  /** Whether a trigger calls the migration runner, given the record. */
  predicate Starts(trigger: Trigger, order: Order, waiting: bool) {
    match trigger
    case Init(_, _) => false
    case Fix => true
    case _ => order == Less && !waiting
  }

  predicate StartsMigrations(rows: Rows, run: Run) {
    var r := FromRows(rows, run.world.legacy);
    Admitted(rows, run) && Starts(run.trigger, CompareWith(r, run.running), Waiting(r, run.now))
  }

  predicate Clean(report: Report) {
    !report.lockBusy && !report.timedOut && !report.failed
  }

  /** A clean finish: every migration ended well, or setup did, and the record
      could be written. */
  predicate CleanFinish(rows: Rows, run: Run) {
    && Admitted(rows, run) && run.world.writable
    && match run.trigger
       case Init(failed, _) => !failed
       case _ => StartsMigrations(rows, run) && Clean(run.world.report)
  }

  predicate RecordsFailure(rows: Rows, run: Run) {
    && StartsMigrations(rows, run) && run.world.writable
    && run.world.report.failed && !run.world.report.lockBusy && !run.world.report.timedOut
  }

  /** The two fields of the record the theorems follow. */
  function Core(rows: Rows): (Option<string>, Option<nat>) {
    (Binary(rows), FailedAt(rows))
  }

  lemma CleanedCore(rows: Rows, running: string, w: World, out: Outcome)
    requires running != ""
    ensures Core(Cleaned(rows, running, w, out).0) == if w.writable then (Some(running), None) else Core(rows)
  {
    StoredFields(rows, CleanRecord(running, w, out.open));
  }

  lemma MigratedCore(rows: Rows, now: nat, running: string, w: World)
    requires running != "" && now < U64_LIMIT
    ensures Core(Migrated(rows, now, running, w).0) ==
      if !w.writable || w.report.lockBusy || w.report.timedOut then Core(rows)
      else if w.report.failed then (Binary(rows), Some(now))
      else (Some(running), None)
  {
    if !w.report.lockBusy && !w.report.timedOut {
      if w.report.failed {
        KeysDiffer();
        DigitsReadBack(now, U64_LIMIT);
      } else {
        CleanedCore(rows, running, w,
          DEFAULT.(changed := w.report.changedSteps, failed := w.report.failedSteps, open := w.open));
      }
    }
  }

  lemma RecheckedCore(rows: Rows, r: Record, w: World)
    ensures Core(Rechecked(rows, r, w).0) == Core(rows)
  {
    KeysDiffer();
  }

  lemma HealedForCore(rows: Rows, run: Run, r: Record, order: Order)
    requires run.running != "" && run.now < U64_LIMIT && order != Greater
    ensures var (t, w) := (run.trigger, run.world);
      var starts := Starts(t, order, Waiting(r, run.now));
      Core(HealedFor(rows, t, run.now, run.running, w, r, order).0) ==
        if !w.writable then Core(rows)
        else if t.Init? then (if t.failed then Core(rows) else (Some(run.running), None))
        else if !starts || w.report.lockBusy || w.report.timedOut then Core(rows)
        else if w.report.failed then (Binary(rows), Some(run.now))
        else (Some(run.running), None)
  {
    var (t, w) := (run.trigger, run.world);
    if t.Init? {
      CleanedCore(rows, run.running, w, DEFAULT.(open := if t.statusline then w.open else WithoutStatusline(w.open)));
    } else {
      MigratedCore(rows, run.now, run.running, w);
      RecheckedCore(rows, r, w);
    }
  }

  /** What one run does to the record: a clean finish names this binary and
      clears the failure time, a failed one stores the time, any other run
      changes neither. */
  lemma RunMovesTheRecord(rows: Rows, run: Run)
    requires run.running != "" && run.now < U64_LIMIT
    ensures Core(RowsAfter(rows, run)) ==
      if CleanFinish(rows, run) then (Some(run.running), None)
      else if RecordsFailure(rows, run) then (Binary(rows), Some(run.now))
      else Core(rows)
  {
    var r := FromRows(rows, run.world.legacy);
    var order := CompareWith(r, run.running);
    if order != Greater {
      HealedForCore(rows, run, r, order);
    }
  }

  /** What the outcome of a heal says about its run. */
  lemma HealedForOutcome(rows: Rows, run: Run, r: Record, order: Order)
    requires order != Greater
    ensures var (t, w) := (run.trigger, run.world);
      var out := HealedFor(rows, t, run.now, run.running, w, r, order).1;
      var starts := Starts(t, order, Waiting(r, run.now));
      && (out.recorded <==>
            if t.Init? then !t.failed && w.writable
            else if t.Hook? && order == Equal then r.pending != []
            else starts && w.writable && Clean(w.report))
      && (out.ListedOpen() ==> starts ==> Clean(w.report))
      && out.skipped != Some(Downgrade)
      && (out.ExitCode() == 0 && t.Fix? ==> out.recorded && out.failed == [])
      && (out.recorded && out.failed == [] ==> out.ExitCode() == 0)
  {
    var (t, w) := (run.trigger, run.world);
    if !t.Init? {
      var out := HealedFor(rows, t, run.now, run.running, w, r, order).1;
      assert Starts(t, order, Waiting(r, run.now)) ==> out == Migrated(rows, run.now, run.running, w).1;
    }
  }

  /** A run that says it recorded this binary leaves a record of an equal
      version; `doctor --fix` ends with 0 exactly on a clean finish without a
      failed step, or after a downgrade; and the open list is complete only
      when no migration was left undone. */
  lemma OutcomeTellsTheTruth(rows: Rows, run: Run)
    requires run.running != "" && run.now < U64_LIMIT
    ensures OutcomeOf(rows, run).recorded ==>
      Binary(RowsAfter(rows, run)).Some? && Versions.Compare(Binary(RowsAfter(rows, run)).value, run.running) == Equal
    ensures run.trigger == Fix ==>
      OutcomeOf(rows, run).ExitCode() ==
        if OutcomeOf(rows, run).skipped == Some(Downgrade)
           || (CleanFinish(rows, run) && OutcomeOf(rows, run).failed == []) then 0 else 1
    ensures OutcomeOf(rows, run).ListedOpen() ==>
      Admitted(rows, run) && (StartsMigrations(rows, run) ==> Clean(run.world.report))
  {
    var r := FromRows(rows, run.world.legacy);
    var order := CompareWith(r, run.running);
    RunMovesTheRecord(rows, run);
    Versions.CompareFlip(run.running, run.running);
    if order != Greater {
      HealedForOutcome(rows, run, r, order);
    }
  }

  ghost predicate Fits(runs: seq<Run>) {
    forall i :: 0 <= i < |runs| ==> runs[i].running != "" && runs[i].now < U64_LIMIT
  }

  ghost predicate RunsBy(rows: Rows, runs: seq<Run>, versions: set<string>) {
    && (Binary(rows).Some? ==> Binary(rows).value in versions)
    && Fits(runs)
    && forall i :: 0 <= i < |runs| ==> runs[i].running in versions
  }

  ghost predicate NeverDown(rows: Rows, runs: seq<Run>) {
    forall i, j {:trigger RowsAt(rows, runs, i), RowsAt(rows, runs, j)} ::
      0 <= i <= j <= |runs| ==> Versions.NotAbove(Binary(RowsAt(rows, runs, i)), Binary(RowsAt(rows, runs, j)))
  }

  lemma RunGoesUp(rows: Rows, run: Run, versions: set<string>)
    requires run.running != "" && run.now < U64_LIMIT && run.running in versions
    requires Versions.Within(Binary(rows), versions)
    ensures Versions.Within(Binary(RowsAfter(rows, run)), versions)
    ensures Versions.NotAbove(Binary(rows), Binary(RowsAfter(rows, run)))
  {
    RunMovesTheRecord(rows, run);
    var r := FromRows(rows, run.world.legacy);
    assert r.binary == Binary(rows);
    Versions.NotAboveItself(Binary(rows));
  }

  /** Each of these runs keeps the recorded version among these, and never
      lowers it. */
  ghost predicate StepsUp(step: (Rows, Run) -> Rows, record: Rows -> Option<string>, runs: seq<Run>,
                          versions: set<string>)
  {
    forall rows, k {:trigger step(rows, runs[k])} :: 0 <= k < |runs| && Versions.Within(record(rows), versions) ==>
      Versions.Within(record(step(rows, runs[k])), versions)
        && Versions.NotAbove(record(rows), record(step(rows, runs[k])))
  }

  lemma {:induction false} AlongStaysWithin(
    rows: Rows, runs: seq<Run>, step: (Rows, Run) -> Rows, record: Rows -> Option<string>,
    versions: set<string>, k: nat)
    requires StepsUp(step, record, runs, versions) && Versions.Within(record(rows), versions) && k <= |runs|
    ensures Versions.Within(record(Along(rows, runs, step, k)), versions)
  {
    if k > 0 {
      AlongStaysWithin(rows, runs, step, record, versions, k - 1);
    }
  }

  lemma {:induction false} AlongGoesUp(
    rows: Rows, runs: seq<Run>, step: (Rows, Run) -> Rows, record: Rows -> Option<string>, versions: set<string>,
    i: nat, j: nat)
    requires Versions.TransitiveOn(versions) && StepsUp(step, record, runs, versions)
    requires Versions.Within(record(rows), versions)
    requires i <= j <= |runs|
    ensures Versions.NotAbove(record(Along(rows, runs, step, i)), record(Along(rows, runs, step, j)))
    decreases j - i
  {
    var first := record(Along(rows, runs, step, i));
    if i == j {
      Versions.NotAboveItself(first);
    } else {
      var before := Along(rows, runs, step, j - 1);
      AlongGoesUp(rows, runs, step, record, versions, i, j - 1);
      AlongStaysWithin(rows, runs, step, record, versions, i);
      AlongStaysWithin(rows, runs, step, record, versions, j - 1);
      Versions.NotAboveChains(first, record(before), record(step(before, runs[j - 1])), versions);
    }
  }

  lemma RecordGoesUp(rows: Rows, runs: seq<Run>, versions: set<string>, i: nat, j: nat)
    requires Versions.TransitiveOn(versions) && RunsBy(rows, runs, versions) && i <= j <= |runs|
    ensures Versions.NotAbove(Binary(RowsAt(rows, runs, i)), Binary(RowsAt(rows, runs, j)))
  {
    EachRunGoesUp(runs, versions);
    AlongGoesUp(rows, runs, RowsAfter, Binary, versions, i, j);
  }

  lemma EachRunGoesUp(runs: seq<Run>, versions: set<string>)
    requires Fits(runs) && forall i :: 0 <= i < |runs| ==> runs[i].running in versions
    ensures StepsUp(RowsAfter, Binary, runs, versions)
  {
    forall rows: Rows, k | 0 <= k < |runs| && Versions.Within(Binary(rows), versions)
      ensures Versions.Within(Binary(RowsAfter(rows, runs[k])), versions)
      ensures Versions.NotAbove(Binary(rows), Binary(RowsAfter(rows, runs[k])))
    {
      RunGoesUp(rows, runs[k], versions);
    }
  }

  /** A clean `doctor --fix` by one binary. */
  function FixBy(version: string): Run {
    Run(Fix, 0, version, World(false, true, true, Report(false, [], [], false, false), [], None, {}))
  }

  /** The downgrade guard keeps the recorded version from ever going down
      exactly when the version order is transitive on the versions that run. */
  lemma NeverDownExactly(versions: set<string>)
    requires "" !in versions
    ensures Versions.TransitiveOn(versions) <==>
      forall rows: Rows, runs: seq<Run> :: RunsBy(rows, runs, versions) ==> NeverDown(rows, runs)
  {
    if Versions.TransitiveOn(versions) {
      forall rows: Rows, runs: seq<Run> | RunsBy(rows, runs, versions) ensures NeverDown(rows, runs) {
        forall i, j | 0 <= i <= j <= |runs|
          ensures Versions.NotAbove(Binary(RowsAt(rows, runs, i)), Binary(RowsAt(rows, runs, j)))
        {
          RecordGoesUp(rows, runs, versions, i, j);
        }
      }
    } else {
      var a, b, c :| a in versions && b in versions && c in versions
        && Versions.AtMost(a, b) && Versions.AtMost(b, c) && !Versions.AtMost(a, c);
      var rows, runs := TwoFixes(versions, a, b, c);
    }
  }

  lemma FixMoves(rows: Rows, from: string, to: string)
    requires to != "" && Binary(rows) == Some(from) && Versions.AtMost(from, to)
    ensures Binary(RowsAfter(rows, FixBy(to))) == Some(to)
  {
    assert FromRows(rows, {}).binary == Some(from);
    assert CleanFinish(rows, FixBy(to));
    RunMovesTheRecord(rows, FixBy(to));
  }

  lemma TwoSteps(rows: Rows, first: Run, second: Run, step: (Rows, Run) -> Rows)
    ensures Along(rows, [first, second], step, 0) == rows
    ensures Along(rows, [first, second], step, 2) == step(step(rows, first), second)
  {
  }

  lemma TwoFixesMove(rows: Rows, a: string, b: string, c: string)
    requires b != "" && c != "" && Binary(rows) == Some(a) && Versions.AtMost(a, b) && Versions.AtMost(b, c)
    ensures var runs := [FixBy(b), FixBy(c)];
      Binary(RowsAt(rows, runs, 0)) == Some(a) && Binary(RowsAt(rows, runs, 2)) == Some(c)
  {
    FixMoves(rows, a, b);
    FixMoves(RowsAfter(rows, FixBy(b)), b, c);
    TwoSteps(rows, FixBy(b), FixBy(c), RowsAfter);
  }

  lemma TwoFixes(versions: set<string>, a: string, b: string, c: string) returns (rows: Rows, runs: seq<Run>)
    requires a in versions && b in versions && c in versions && "" !in versions
    requires Versions.AtMost(a, b) && Versions.AtMost(b, c) && !Versions.AtMost(a, c)
    ensures RunsBy(rows, runs, versions) && !NeverDown(rows, runs)
  {
    rows, runs := map[BINARY_KEY := a], [FixBy(b), FixBy(c)];
    TwoFixesMove(rows, a, b, c);
    assert !Versions.NotAbove(Binary(RowsAt(rows, runs, 0)), Binary(RowsAt(rows, runs, 2)));
  }

  lemma FailureStaysOnce(rows: Rows, run: Run)
    requires run.running != "" && run.now < U64_LIMIT
    ensures RecordsFailure(rows, run) ==> FailedAt(RowsAfter(rows, run)) == Some(run.now)
    ensures !RecordsFailure(rows, run) && !CleanFinish(rows, run) && FailedAt(rows).Some? ==>
      FailedAt(RowsAfter(rows, run)) == FailedAt(rows)
  {
    RunMovesTheRecord(rows, run);
  }

  lemma {:induction false} AlongStays(
    rows: Rows, runs: seq<Run>, step: (Rows, Run) -> Rows, field: Rows -> Option<nat>, value: nat, i: nat, j: nat)
    requires i < j <= |runs| && field(step(Along(rows, runs, step, i), runs[i])) == Some(value)
    requires forall k: nat :: i < k < j && field(Along(rows, runs, step, k)) == Some(value) ==>
      field(step(Along(rows, runs, step, k), runs[k])) == Some(value)
    ensures field(Along(rows, runs, step, j)) == Some(value)
  {
    if i + 1 < j {
      AlongStays(rows, runs, step, field, value, i, j - 1);
    }
  }

  /** The failure time of run `i` stays until the next failure or clean finish. */
  lemma FailureStays(rows: Rows, runs: seq<Run>, i: nat, j: nat)
    requires Fits(runs) && i < j <= |runs| && RecordsFailure(RowsAt(rows, runs, i), runs[i])
    requires forall k :: i < k < j ==>
      !RecordsFailure(RowsAt(rows, runs, k), runs[k]) && !CleanFinish(RowsAt(rows, runs, k), runs[k])
    ensures FailedAt(RowsAt(rows, runs, j)) == Some(runs[i].now)
  {
    FailureStaysOnce(RowsAt(rows, runs, i), runs[i]);
    forall k: nat | i < k < j && FailedAt(RowsAt(rows, runs, k)) == Some(runs[i].now)
      ensures FailedAt(RowsAfter(RowsAt(rows, runs, k), runs[k])) == Some(runs[i].now)
    {
      FailureStaysOnce(RowsAt(rows, runs, k), runs[k]);
    }
    AlongStays(rows, runs, RowsAfter, FailedAt, runs[i].now, i, j);
  }

  /** No hook and no first-run step starts migrations within a day of the last
      recorded failure, until a clean finish clears it. */
  lemma NoEarlyRetry(rows: Rows, runs: seq<Run>, i: nat, j: nat)
    requires Fits(runs) && i < j < |runs| && RecordsFailure(RowsAt(rows, runs, i), runs[i])
    requires forall k :: i < k < j ==>
      !RecordsFailure(RowsAt(rows, runs, k), runs[k]) && !CleanFinish(RowsAt(rows, runs, k), runs[k])
    requires runs[j].trigger == Hook || runs[j].trigger == Start
    ensures runs[j].now < runs[i].now + RETRY_AFTER_SECS ==> !StartsMigrations(RowsAt(rows, runs, j), runs[j])
  {
    FailureStays(rows, runs, i, j);
  }
}
