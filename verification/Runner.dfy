/** The pilot runner's counting and report shape (crates/code-bench/src/runner.rs).
    The binary is an input: it answers the query of each task with its standard
    output, or fails. A standard output is its parsed results, or why it does not
    parse, and its size. */
module Runner {
  import opened Base
  import opened Metrics

  datatype QueryKind = Symbol | Refs

  function Subcommand(kind: QueryKind): string {
    match kind
    case Symbol => "symbol"
    case Refs => "refs"
  }

  datatype Loc = Loc(path: string, line: nat)

  datatype Stdout = Stdout(results: Result<seq<Loc>, string>, bytes: nat, tokens: nat)

  /** A result or a true item, with the index of its task. */
  datatype Pooled = Pooled(index: nat, loc: Loc)

  datatype RepoStatus = Measured | Failed(reason: string)

  datatype Cell = Cell(
    kind: QueryKind, tasks: nat, excluded: nat, precisionBps: Option<nat>, recallBps: Option<nat>,
    correct: nat, bytes: nat, tokens: nat, bytesPerCorrect: Option<nat>)

  datatype RepoReport = RepoReport(repo: string, status: RepoStatus, cells: seq<Cell>)

  datatype Report = Report(tasksVersion: nat, repos: seq<RepoReport>)

  /** What a tally holds. */
  datatype Counts = Counts(
    measured: nat, excluded: nat, retrieved: seq<Pooled>, truth: seq<Pooled>, correct: nat, bytes: nat, tokens: nat)

  const EMPTY := Counts(0, 0, [], [], 0, 0, 0)

  function Tag(index: nat, locs: seq<Loc>): (tagged: seq<Pooled>)
    ensures |tagged| == |locs| && forall i :: 0 <= i < |locs| ==> tagged[i] == Pooled(index, locs[i])
  {
    seq(|locs|, i requires 0 <= i < |locs| => Pooled(index, locs[i]))
  }

  /** What a parse failure is reported with. */
  const NO_PARSE := "output does not parse: "

  /** The counts after one task whose output parsed. */
  function Counted(c: Counts, index: nat, results: seq<Loc>, out: Stdout, truth: seq<Loc>): Counts {
    Counts(c.measured + 1, c.excluded, c.retrieved + Tag(index, results), c.truth + Tag(index, truth),
           c.correct + |ToSet(results) * ToSet(truth)|, c.bytes + out.bytes, c.tokens + out.tokens)
  }

  function Added(c: Counts, index: nat, out: Stdout, truth: seq<Loc>): Result<Counts, string> {
    match out.results
    case Err(why) => Err(NO_PARSE + why)
    case Ok(results) => Ok(Counted(c, index, results, out, truth))
  }

  function CellOf(c: Counts, kind: QueryKind): Cell {
    Cell(kind, c.measured, c.excluded, Precision(c.retrieved, c.truth), Recall(c.retrieved, c.truth),
         c.correct, c.bytes, c.tokens, CostPerCorrect(c.bytes, c.correct))
  }

  class Tally {
    var measured: nat
    var excluded: nat
    var retrieved: seq<Pooled>
    var truth: seq<Pooled>
    var correct: nat
    var bytes: nat
    var tokens: nat

    constructor ()
      ensures Value() == EMPTY
    {
      measured, excluded, retrieved, truth, correct, bytes, tokens := 0, 0, [], [], 0, 0, 0;
    }

    function Value(): Counts
      reads this
    {
      Counts(measured, excluded, retrieved, truth, correct, bytes, tokens)
    }

    /** Counts one task. An output that does not parse changes nothing. */
    method Add(index: nat, out: Stdout, wanted: seq<Loc>) returns (r: Result<(), string>)
      modifies this
      ensures r.Ok? <==> Added(old(Value()), index, out, wanted) == Ok(Value())
      ensures r.Err? ==> Added(old(Value()), index, out, wanted) == Err(r.error) && Value() == old(Value())
    {
      if out.results.Err? {
        return Err(NO_PARSE + out.results.error);
      }
      Count(index, out.results.value, out, wanted);
      r := Ok(());
    }

    method Count(index: nat, results: seq<Loc>, out: Stdout, wanted: seq<Loc>)
      modifies this
      ensures Value() == Counted(old(Value()), index, results, out, wanted)
    {
      var truthSet := ToSet(wanted);
      var found := set hit | hit in results && hit in truthSet;
      assert found == ToSet(results) * truthSet;
      correct := correct + |found|;
      measured := measured + 1;
      bytes := bytes + out.bytes;
      tokens := tokens + out.tokens;
      retrieved := retrieved + Tag(index, results);
      truth := truth + Tag(index, wanted);
    }
  }

  // ---- The running count is the pooled count.

  /** All pooled items come from these tasks. */
  ghost predicate From(pool: seq<Pooled>, indices: set<nat>) {
    forall i :: 0 <= i < |pool| ==> pool[i].index in indices
  }

  /** `correct` counts the distinct pooled results in the pooled truth. */
  ghost predicate Exact(c: Counts, indices: set<nat>) {
    && From(c.retrieved, indices) && From(c.truth, indices)
    && c.correct == |ToSet(c.retrieved) * ToSet(c.truth)|
  }

  lemma TagSet(index: nat, locs: seq<Loc>)
    ensures ToSet(Tag(index, locs)) == set l | l in ToSet(locs) :: Pooled(index, l)
  {
    var tagged := Tag(index, locs);
    forall p | p in tagged ensures exists l :: l in ToSet(locs) && p == Pooled(index, l) {
      var i :| 0 <= i < |tagged| && tagged[i] == p;
      assert locs[i] in ToSet(locs);
    }
    forall l | l in ToSet(locs) ensures Pooled(index, l) in tagged {
      var i :| 0 <= i < |locs| && locs[i] == l;
      assert tagged[i] == Pooled(index, l);
    }
  }

  lemma {:induction false} TagSize(index: nat, locs: set<Loc>)
    ensures |set l | l in locs :: Pooled(index, l)| == |locs|
  {
    if locs != {} {
      var x :| x in locs;
      TagSize(index, locs - {x});
      assert (set l | l in locs :: Pooled(index, l)) ==
             (set l | l in locs - {x} :: Pooled(index, l)) + {Pooled(index, x)};
    }
  }

  /** The results one task adds: its own hits, and nothing of another task. */
  lemma NewHits(index: nat, results: seq<Loc>, wanted: seq<Loc>)
    ensures |ToSet(Tag(index, results)) * ToSet(Tag(index, wanted))| == |ToSet(results) * ToSet(wanted)|
  {
    TagSet(index, results);
    TagSet(index, wanted);
    TagSize(index, ToSet(results) * ToSet(wanted));
    assert ToSet(Tag(index, results)) * ToSet(Tag(index, wanted)) ==
           set l | l in ToSet(results) * ToSet(wanted) :: Pooled(index, l);
  }

  lemma SetsSplit(r: set<Pooled>, t: set<Pooled>, moreR: set<Pooled>, moreT: set<Pooled>)
    requires r !! moreT && moreR !! t && r !! moreR
    ensures |(r + moreR) * (t + moreT)| == |r * t| + |moreR * moreT|
  {
    assert (r + moreR) * (t + moreT) == r * t + moreR * moreT;
  }

  lemma FromDisjoint(a: seq<Pooled>, b: seq<Pooled>, indices: set<nat>, index: nat)
    requires From(a, indices) && From(b, {index}) && index !in indices
    ensures ToSet(a) !! ToSet(b)
  {
    forall x | x in ToSet(a) ensures x !in ToSet(b) {
      assert x.index in indices;
    }
  }

  lemma PoolsSplit(r: seq<Pooled>, t: seq<Pooled>, moreR: seq<Pooled>, moreT: seq<Pooled>, indices: set<nat>,
                   index: nat)
    requires From(r, indices) && From(t, indices) && index !in indices
    requires From(moreR, {index}) && From(moreT, {index})
    ensures |ToSet(r + moreR) * ToSet(t + moreT)| == |ToSet(r) * ToSet(t)| + |ToSet(moreR) * ToSet(moreT)|
    ensures From(r + moreR, indices + {index}) && From(t + moreT, indices + {index})
  {
    FromDisjoint(r, moreT, indices, index);
    FromDisjoint(t, moreR, indices, index);
    FromDisjoint(r, moreR, indices, index);
    SetsSplit(ToSet(r), ToSet(t), ToSet(moreR), ToSet(moreT));
    assert ToSet(r + moreR) == ToSet(r) + ToSet(moreR) && ToSet(t + moreT) == ToSet(t) + ToSet(moreT);
  }

  /** Adding a task that was not counted yet keeps the count exact. */
  lemma AddKeepsExact(c: Counts, indices: set<nat>, index: nat, out: Stdout, wanted: seq<Loc>)
    requires Exact(c, indices) && index !in indices && out.results.Ok?
    ensures Exact(Added(c, index, out, wanted).value, indices + {index})
  {
    var results := out.results.value;
    NewHits(index, results, wanted);
    PoolsSplit(c.retrieved, c.truth, Tag(index, results), Tag(index, wanted), indices, index);
  }

  /** An exact tally reports shares of the pooled sets, never above 10,000. */
  lemma CellIsPooled(c: Counts, indices: set<nat>, kind: QueryKind)
    requires Exact(c, indices)
    ensures var (cell, r, t) := (CellOf(c, kind), ToSet(c.retrieved), ToSet(c.truth));
      && cell.precisionBps == (if r == {} then None else Some(Ratio(cell.correct, |r|)))
      && cell.recallBps == (if t == {} then None else Some(Ratio(cell.correct, |t|)))
      && cell.precisionBps.GetOr(0) <= BASIS_POINTS_PER_UNIT && cell.recallBps.GetOr(0) <= BASIS_POINTS_PER_UNIT
  {
    SharesOfPooledSets(c.retrieved, c.truth);
  }

  // ---- One repo, and the whole run.

  datatype Task = Task(id: string, name: string, path: string, line: nat)

  /** One repo to run, with the oracle truth by task id. */
  datatype Job = Job(repo: string, checkout: Result<string, string>, tasks: seq<Task>, truth: map<string, seq<Loc>>)

  /** How the binary answers in one checkout: to the index command, and to the
      query of the task at an index. */
  datatype Binary = Binary(index: Result<(), string>, answer: (QueryKind, nat) -> Result<Stdout, string>)

  function TruthFor(kind: QueryKind, task: Task, job: Job): Option<seq<Loc>> {
    match kind
    case Symbol => Some([Loc(task.path, task.line)])
    case Refs => if task.id in job.truth then Some(job.truth[task.id]) else None
  }

  /** The reason a failed query of a task is reported with. */
  function Blamed(kind: QueryKind, task: Task, why: string): string {
    Subcommand(kind) + " " + task.id + ": " + why
  }

  /** The tally after task `i`, or why its query failed. */
  function Step(before: Counts, binary: Binary, job: Job, kind: QueryKind, i: nat): Result<Counts, string>
    requires i < |job.tasks|
  {
    var task := job.tasks[i];
    match TruthFor(kind, task, job)
    case None => Ok(before.(excluded := before.excluded + 1))
    case Some(wanted) =>
      match binary.answer(kind, i)
      case Err(why) => Err(Blamed(kind, task, why))
      case Ok(out) =>
        match Added(before, i, out, wanted)
        case Err(why) => Err(Blamed(kind, task, why))
        case Ok(after) => Ok(after)
  }

  type Stepper = (Counts, nat) -> Result<Counts, string>

  /** The tally over the first `n` tasks, up to the first step that fails. */
  function Folded(step: Stepper, n: nat): Result<Counts, string> {
    if n == 0 then Ok(EMPTY)
    else
      var before := Folded(step, n - 1);
      if before.Err? then before else step(before.value, n - 1)
  }

  function StepOf(binary: Binary, job: Job, kind: QueryKind): Stepper {
    (before: Counts, i: nat) => if i < |job.tasks| then Step(before, binary, job, kind, i) else Ok(before)
  }

  /** The tally over the first `n` tasks, or why the first failed query failed. */
  function TallyOf(binary: Binary, job: Job, kind: QueryKind, n: nat): Result<Counts, string>
    requires n <= |job.tasks|
  {
    Folded(StepOf(binary, job, kind), n)
  }

  /** Why the query of one task fails, whatever was counted before. */
  function ReasonOf(binary: Binary, job: Job, kind: QueryKind, i: nat): Option<string>
    requires i < |job.tasks|
  {
    var task := job.tasks[i];
    if TruthFor(kind, task, job).None? then None
    else
      match binary.answer(kind, i)
      case Err(why) => Some(Blamed(kind, task, why))
      case Ok(out) => if out.results.Err? then Some(Blamed(kind, task, NO_PARSE + out.results.error)) else None
  }

  lemma StepFailsExactly(before: Counts, binary: Binary, job: Job, kind: QueryKind, i: nat)
    requires i < |job.tasks|
    ensures var (step, reason) := (Step(before, binary, job, kind, i), ReasonOf(binary, job, kind, i));
      if reason.Some? then step == Err(reason.value) else step.Ok?
  {
  }

  /** This task fails, and none before it. */
  ghost predicate FailsFirst(binary: Binary, job: Job, kind: QueryKind, i: nat, reason: string) {
    && i < |job.tasks|
    && ReasonOf(binary, job, kind, i) == Some(reason)
    && forall j: nat :: j < i ==> ReasonOf(binary, job, kind, j) == None
  }

  lemma {:induction false} FoldFailsExactly(step: Stepper, reason: nat -> Option<string>, n: nat)
    requires forall c, i: nat {:trigger step(c, i)} :: i < n ==>
      if reason(i).Some? then step(c, i) == Err(reason(i).value) else step(c, i).Ok?
    ensures Folded(step, n).Ok? <==> forall i: nat :: i < n ==> reason(i) == None
    ensures Folded(step, n).Err? ==>
      exists i: nat :: i < n && reason(i) == Some(Folded(step, n).error) && forall j: nat :: j < i ==> reason(j) == None
  {
    if n > 0 {
      FoldFailsExactly(step, reason, n - 1);
      if Folded(step, n - 1).Ok? && reason(n - 1).Some? {
        assert step(Folded(step, n - 1).value, n - 1) == Err(reason(n - 1).value);
      }
    }
  }

  /** A tally fails exactly when some task does, with the reason of the first. */
  lemma TallyFailsExactly(binary: Binary, job: Job, kind: QueryKind, n: nat)
    requires n <= |job.tasks|
    ensures var tally := TallyOf(binary, job, kind, n);
      && (tally.Ok? <==> forall i: nat :: i < n ==> ReasonOf(binary, job, kind, i) == None)
      && (tally.Err? ==> exists i: nat :: i < n && FailsFirst(binary, job, kind, i, tally.error))
  {
    var step := StepOf(binary, job, kind);
    var reason := (i: nat) => if i < |job.tasks| then ReasonOf(binary, job, kind, i) else None;
    forall c, i: nat {:trigger step(c, i)} | i < n
      ensures if reason(i).Some? then step(c, i) == Err(reason(i).value) else step(c, i).Ok?
    {
      StepFailsExactly(c, binary, job, kind, i);
    }
    FoldFailsExactly(step, reason, n);
    forall i: nat | i < n ensures reason(i) == ReasonOf(binary, job, kind, i) {
    }
    var tally := TallyOf(binary, job, kind, n);
    if tally.Err? {
      var i: nat :| i < n && reason(i) == Some(tally.error) && forall j: nat :: j < i ==> reason(j) == None;
      forall j: nat | j < i ensures ReasonOf(binary, job, kind, j) == None {
        assert reason(j) == None;
      }
      assert FailsFirst(binary, job, kind, i, tally.error);
    }
  }

  function Indices(n: nat): (r: set<nat>)
    ensures forall i: nat :: i in r <==> i < n
  {
    if n == 0 then {} else Indices(n - 1) + {n - 1}
  }

  lemma EmptyIsExact()
    ensures Exact(EMPTY, {})
  {
    assert ToSet(EMPTY.retrieved) * ToSet(EMPTY.truth) == {};
  }

  lemma ExactGrows(c: Counts, indices: set<nat>, more: set<nat>)
    requires Exact(c, indices) && indices <= more
    ensures Exact(c.(excluded := c.excluded + 1), more)
  {}

  lemma StepIsExact(before: Counts, binary: Binary, job: Job, kind: QueryKind, i: nat)
    requires i < |job.tasks| && Exact(before, Indices(i)) && Step(before, binary, job, kind, i).Ok?
    ensures Exact(Step(before, binary, job, kind, i).value, Indices(i + 1))
  {
    var wanted := TruthFor(kind, job.tasks[i], job);
    assert Indices(i + 1) == Indices(i) + {i};
    if wanted.Some? {
      AddKeepsExact(before, Indices(i), i, binary.answer(kind, i).value, wanted.value);
    } else {
      ExactGrows(before, Indices(i), Indices(i + 1));
    }
  }

  /** What every step keeps holds of the tally. */
  lemma {:induction false} FoldHolds(step: Stepper, holds: (Counts, nat) -> bool, n: nat)
    requires holds(EMPTY, 0) && StepsKeep(step, holds, n)
    requires Folded(step, n).Ok?
    ensures holds(Folded(step, n).value, n)
  {
    if n > 0 {
      FoldHolds(step, holds, n - 1);
      assert holds(step(Folded(step, n - 1).value, n - 1).value, n - 1 + 1);
    }
  }

  /** Every step keeps this. */
  ghost predicate StepsKeep(step: Stepper, holds: (Counts, nat) -> bool, n: nat) {
    forall c, i: nat {:trigger step(c, i)} :: i < n && holds(c, i) && step(c, i).Ok? ==> holds(step(c, i).value, i + 1)
  }

  ghost function ExactAt(): (Counts, nat) -> bool {
    (c: Counts, i: nat) => Exact(c, Indices(i))
  }

  lemma StepKeepsExact(binary: Binary, job: Job, kind: QueryKind, c: Counts, i: nat)
    requires i < |job.tasks| && ExactAt()(c, i) && StepOf(binary, job, kind)(c, i).Ok?
    ensures ExactAt()(StepOf(binary, job, kind)(c, i).value, i + 1)
  {
    StepIsExact(c, binary, job, kind, i);
  }

  lemma StepsKeepExact(binary: Binary, job: Job, kind: QueryKind, step: Stepper, holds: (Counts, nat) -> bool)
    requires step == StepOf(binary, job, kind) && holds == ExactAt()
    ensures StepsKeep(step, holds, |job.tasks|)
  {
    forall c, i: nat | i < |job.tasks| && holds(c, i) && step(c, i).Ok? ensures holds(step(c, i).value, i + 1) {
      StepKeepsExact(binary, job, kind, c, i);
    }
  }

  /** Every tally of a run is exact. */
  lemma RunTallyIsExact(binary: Binary, job: Job, kind: QueryKind, n: nat)
    requires n <= |job.tasks| && TallyOf(binary, job, kind, n).Ok?
    ensures Exact(TallyOf(binary, job, kind, n).value, Indices(n))
  {
    var (step, holds) := (StepOf(binary, job, kind), ExactAt());
    EmptyIsExact();
    StepsKeepExact(binary, job, kind, step, holds);
    FoldHolds(step, holds, n);
  }

  function Untruthed(job: Job, kind: QueryKind, n: nat): (r: set<nat>)
    requires n <= |job.tasks|
    ensures forall i: nat :: i in r <==> i < n && TruthFor(kind, job.tasks[i], job).None?
  {
    if n == 0 then {}
    else Untruthed(job, kind, n - 1) + if TruthFor(kind, job.tasks[n - 1], job).None? then {n - 1} else {}
  }

  lemma UntruthedSize(job: Job, kind: QueryKind, n: nat)
    requires 0 < n <= |job.tasks|
    ensures |Untruthed(job, kind, n)| ==
      |Untruthed(job, kind, n - 1)| + if TruthFor(kind, job.tasks[n - 1], job).None? then 1 else 0
  {
    var before := Untruthed(job, kind, n - 1);
    assert n - 1 !in before;
  }

  lemma StepSplits(before: Counts, binary: Binary, job: Job, kind: QueryKind, i: nat)
    requires i < |job.tasks| && Step(before, binary, job, kind, i).Ok?
    ensures var (after, more) := (Step(before, binary, job, kind, i).value,
      if TruthFor(kind, job.tasks[i], job).None? then 1 else 0);
      after.measured == before.measured + 1 - more && after.excluded == before.excluded + more
  {
  }

  /** A tally splits the first tasks into the measured ones and those without truth. */
  ghost predicate Splits(c: Counts, job: Job, kind: QueryKind, i: nat) {
    i <= |job.tasks| && c.measured + c.excluded == i && c.excluded == |Untruthed(job, kind, i)|
  }

  ghost function SplitsAt(job: Job, kind: QueryKind): (Counts, nat) -> bool {
    (c: Counts, i: nat) => Splits(c, job, kind, i)
  }

  lemma StepKeepsSplit(binary: Binary, job: Job, kind: QueryKind, c: Counts, i: nat)
    requires i < |job.tasks| && Splits(c, job, kind, i) && Step(c, binary, job, kind, i).Ok?
    ensures Splits(Step(c, binary, job, kind, i).value, job, kind, i + 1)
  {
    UntruthedSize(job, kind, i + 1);
    StepSplits(c, binary, job, kind, i);
  }

  lemma StepsKeepSplit(binary: Binary, job: Job, kind: QueryKind, step: Stepper, holds: (Counts, nat) -> bool)
    requires step == StepOf(binary, job, kind) && holds == SplitsAt(job, kind)
    ensures StepsKeep(step, holds, |job.tasks|)
  {
    forall c, i: nat | i < |job.tasks| && holds(c, i) && step(c, i).Ok? ensures holds(step(c, i).value, i + 1) {
      StepKeepsSplit(binary, job, kind, c, i);
    }
  }

  /** A tally splits the tasks into the measured ones and those without truth. */
  lemma TallySplitsTasks(binary: Binary, job: Job, kind: QueryKind, n: nat)
    requires n <= |job.tasks| && TallyOf(binary, job, kind, n).Ok?
    ensures var c := TallyOf(binary, job, kind, n).value;
      c.measured + c.excluded == n && c.excluded == |Untruthed(job, kind, n)|
  {
    var (step, holds) := (StepOf(binary, job, kind), SplitsAt(job, kind));
    assert Untruthed(job, kind, 0) == {};
    StepsKeepSplit(binary, job, kind, step, holds);
    FoldHolds(step, holds, n);
  }

  /** Counts one task, unless it has no true items. */
  method TallyTask(tally: Tally, binary: Binary, job: Job, kind: QueryKind, i: nat, ghost step: Stepper)
    returns (r: Result<(), string>)
    requires i < |job.tasks| && step == StepOf(binary, job, kind)
    modifies tally
    ensures r.Ok? ==> step(old(tally.Value()), i) == Ok(tally.Value())
    ensures r.Err? ==> step(old(tally.Value()), i) == Err(r.error)
  {
    var task := job.tasks[i];
    var wanted := TruthFor(kind, task, job);
    if wanted.None? {
      tally.excluded := tally.excluded + 1;
      return Ok(());
    }
    var out := binary.answer(kind, i);
    if out.Err? {
      return Err(Blamed(kind, task, out.error));
    }
    r := tally.Add(i, out.value, wanted.value);
    if r.Err? {
      r := Err(Blamed(kind, task, r.error));
    }
  }

  /** The tally of one kind over all tasks, up to the first failed query. */
  method TallyKind(binary: Binary, job: Job, kind: QueryKind) returns (cell: Result<Cell, string>)
    ensures cell == CellFrom(TallyOf(binary, job, kind, |job.tasks|), kind)
  {
    var tally := new Tally();
    ghost var step := StepOf(binary, job, kind);
    for i := 0 to |job.tasks|
      invariant Folded(step, i) == Ok(tally.Value())
    {
      var r := TallyTask(tally, binary, job, kind, i, step);
      if r.Err? {
        FailureStays(step, i + 1, |job.tasks|);
        return Err(r.error);
      }
    }
    cell := Ok(CellOf(tally.Value(), kind));
  }

  function CellFrom(tally: Result<Counts, string>, kind: QueryKind): Result<Cell, string> {
    match tally
    case Ok(c) => Ok(CellOf(c, kind))
    case Err(reason) => Err(reason)
  }

  lemma {:induction false} FailureStays(step: Stepper, n: nat, m: nat)
    requires n <= m && Folded(step, n).Err?
    ensures Folded(step, m) == Folded(step, n)
    decreases m
  {
    if n < m {
      FailureStays(step, n, m - 1);
    }
  }

  /** The cells of one repo, or the first step that failed: the checkout, the
      index, the symbol queries, the reference queries. */
  function RepoOutcome(binary: Binary, job: Job): Result<seq<Cell>, string> {
    if job.checkout.Err? then Err("clone: " + job.checkout.error)
    else if binary.index.Err? then Err("index: " + binary.index.error)
    else
      match CellFrom(TallyOf(binary, job, Symbol, |job.tasks|), Symbol)
      case Err(reason) => Err(reason)
      case Ok(symbol) =>
        match CellFrom(TallyOf(binary, job, Refs, |job.tasks|), Refs)
        case Err(reason) => Err(reason)
        case Ok(refs) => Ok([symbol, refs])
  }

  method RunRepo(binary: Binary, job: Job) returns (r: Result<seq<Cell>, string>)
    ensures r == RepoOutcome(binary, job)
  {
    if job.checkout.Err? {
      return Err("clone: " + job.checkout.error);
    }
    if binary.index.Err? {
      return Err("index: " + binary.index.error);
    }
    var symbol := TallyKind(binary, job, Symbol);
    if symbol.Err? {
      return Err(symbol.error);
    }
    var refs := TallyKind(binary, job, Refs);
    if refs.Err? {
      return Err(refs.error);
    }
    r := Ok([symbol.value, refs.value]);
  }

  /** What a failure is reported with: the step, the task, and why. */
  lemma BlamedSays(kind: QueryKind, task: Task, why: string)
    ensures Blamed(kind, task, why) == (if kind == Symbol then "symbol " else "refs ") + task.id + ": " + why
  {
  }

  /** The reason of a repo that is not measured is that of its first failed step. */
  lemma OutcomeBlames(binary: Binary, job: Job, reason: string)
    ensures RepoOutcome(binary, job) == Err(reason) <==>
      match (job.checkout, binary.index)
      case (Err(why), _) => reason == "clone: " + why
      case (Ok(_), Err(why)) => reason == "index: " + why
      case (Ok(_), Ok(_)) =>
        var (symbol, refs) := (TallyOf(binary, job, Symbol, |job.tasks|), TallyOf(binary, job, Refs, |job.tasks|));
        symbol == Err(reason) || (symbol.Ok? && refs == Err(reason))
  {
  }

  /** A row of `Run`: the cells of the repo when every step ran, else the reason
      of the first failure and no cells. */
  predicate RowOf(r: RepoReport, binary: Binary, job: Job) {
    && r.repo == job.repo
    && match RepoOutcome(binary, job)
       case Ok(cells) => r.status == Measured && r.cells == cells
       case Err(reason) => r.status == Failed(reason) && r.cells == []
  }

  lemma OutcomeIsOk(binary: Binary, job: Job)
    ensures RepoOutcome(binary, job).Ok? <==>
      && job.checkout.Ok? && binary.index.Ok?
      && TallyOf(binary, job, Symbol, |job.tasks|).Ok? && TallyOf(binary, job, Refs, |job.tasks|).Ok?
  {
  }

  predicate AllAnswered(binary: Binary, job: Job, kind: QueryKind) {
    forall i: nat :: i < |job.tasks| ==> ReasonOf(binary, job, kind, i) == None
  }

  /** A repo is measured exactly when its checkout, its index and every query of
      a task with truth worked. */
  lemma MeasuredExactly(binary: Binary, job: Job)
    ensures RepoOutcome(binary, job).Ok? <==>
      job.checkout.Ok? && binary.index.Ok? && AllAnswered(binary, job, Symbol) && AllAnswered(binary, job, Refs)
  {
    OutcomeIsOk(binary, job);
    TallyFailsExactly(binary, job, Symbol, |job.tasks|);
    TallyFailsExactly(binary, job, Refs, |job.tasks|);
  }

  /** The shape of a report row: both kinds once each, or a failure without cells. */
  predicate WellShaped(r: RepoReport) {
    match r.status
    case Measured => |r.cells| == 2 && r.cells[0].kind == Symbol && r.cells[1].kind == Refs
    case Failed(_) => r.cells == []
  }

  // ---- What a cell holds, task by task.

  /** Every task has its own place as the truth of a symbol query; the truth of a
      reference query is the oracle's, for the tasks it knows. */
  lemma TruthIs(kind: QueryKind, task: Task, job: Job, loc: Loc)
    ensures TruthFor(kind, task, job).Some? <==> kind == Symbol || task.id in job.truth
    ensures TruthFor(kind, task, job).Some? ==>
      (loc in TruthFor(kind, task, job).value <==>
        if kind == Symbol then loc.path == task.path && loc.line == task.line else loc in job.truth[task.id])
  {
  }

  predicate HasTruth(job: Job, kind: QueryKind, i: nat)
    requires i < |job.tasks|
  {
    TruthFor(kind, job.tasks[i], job).Some?
  }

  /** The parsed output for a task with truth. */
  function OutputOf(binary: Binary, job: Job, kind: QueryKind, i: nat): Option<(seq<Loc>, Stdout)>
    requires i < |job.tasks|
  {
    if HasTruth(job, kind, i) && binary.answer(kind, i).Ok? && binary.answer(kind, i).value.results.Ok?
    then Some((binary.answer(kind, i).value.results.value, binary.answer(kind, i).value)) else None
  }

  function At(i: nat, locs: seq<Loc>): set<Pooled> {
    set loc | loc in locs :: Pooled(i, loc)
  }

  /** All results of the first `n` tasks, each with the task that asked for it. */
  function Returned(binary: Binary, job: Job, kind: QueryKind, n: nat): set<Pooled>
    requires n <= |job.tasks|
  {
    if n == 0 then {}
    else
      match OutputOf(binary, job, kind, n - 1)
      case Some((results, _)) => At(n - 1, results) + Returned(binary, job, kind, n - 1)
      case None => Returned(binary, job, kind, n - 1)
  }

  /** All the truth of the first `n` tasks. */
  function Wanted(job: Job, kind: QueryKind, n: nat): set<Pooled>
    requires n <= |job.tasks|
  {
    if n == 0 then {}
    else if HasTruth(job, kind, n - 1) then
      At(n - 1, TruthFor(kind, job.tasks[n - 1], job).value) + Wanted(job, kind, n - 1)
    else Wanted(job, kind, n - 1)
  }

  /** The total size of the outputs for the first `n` tasks. */
  function Total(binary: Binary, job: Job, kind: QueryKind, size: Stdout -> nat, n: nat): nat
    requires n <= |job.tasks|
  {
    if n == 0 then 0
    else
      Total(binary, job, kind, size, n - 1)
      + match OutputOf(binary, job, kind, n - 1)
        case Some((_, out)) => size(out)
        case None => 0
  }

  function BytesOf(): Stdout -> nat {
    (out: Stdout) => out.bytes
  }

  function TokensOf(): Stdout -> nat {
    (out: Stdout) => out.tokens
  }

  /** A tally holds the results, the truth and the sizes of its tasks. */
  ghost predicate Sums(c: Counts, binary: Binary, job: Job, kind: QueryKind, n: nat) {
    && n <= |job.tasks|
    && ToSet(c.retrieved) == Returned(binary, job, kind, n) && ToSet(c.truth) == Wanted(job, kind, n)
    && c.bytes == Total(binary, job, kind, BytesOf(), n) && c.tokens == Total(binary, job, kind, TokensOf(), n)
  }

  ghost function SumsAt(binary: Binary, job: Job, kind: QueryKind): (Counts, nat) -> bool {
    (c: Counts, n: nat) => Sums(c, binary, job, kind, n)
  }

  lemma ToSetTagged(pool: seq<Pooled>, i: nat, locs: seq<Loc>)
    ensures ToSet(pool + Tag(i, locs)) == At(i, locs) + ToSet(pool)
  {
    TagSet(i, locs);
    assert ToSet(pool + Tag(i, locs)) == ToSet(pool) + ToSet(Tag(i, locs));
    assert At(i, locs) == set l | l in ToSet(locs) :: Pooled(i, l);
  }

  lemma StepSums(before: Counts, binary: Binary, job: Job, kind: QueryKind, i: nat)
    requires i < |job.tasks| && Sums(before, binary, job, kind, i) && Step(before, binary, job, kind, i).Ok?
    ensures Sums(Step(before, binary, job, kind, i).value, binary, job, kind, i + 1)
  {
    if HasTruth(job, kind, i) {
      var out := binary.answer(kind, i).value;
      assert OutputOf(binary, job, kind, i) == Some((out.results.value, out));
      ToSetTagged(before.retrieved, i, out.results.value);
      ToSetTagged(before.truth, i, TruthFor(kind, job.tasks[i], job).value);
    }
  }

  lemma StepsKeepSums(binary: Binary, job: Job, kind: QueryKind, step: Stepper, holds: (Counts, nat) -> bool)
    requires step == StepOf(binary, job, kind) && holds == SumsAt(binary, job, kind)
    ensures StepsKeep(step, holds, |job.tasks|)
  {
    forall c, i: nat | i < |job.tasks| && holds(c, i) && step(c, i).Ok? ensures holds(step(c, i).value, i + 1) {
      StepSums(c, binary, job, kind, i);
    }
  }

  lemma TallySums(binary: Binary, job: Job, kind: QueryKind)
    requires TallyOf(binary, job, kind, |job.tasks|).Ok?
    ensures Sums(TallyOf(binary, job, kind, |job.tasks|).value, binary, job, kind, |job.tasks|)
  {
    var (step, holds) := (StepOf(binary, job, kind), SumsAt(binary, job, kind));
    StepsKeepSums(binary, job, kind, step, holds);
    FoldHolds(step, holds, |job.tasks|);
  }

  /** A share of a set that can be empty, in basis points. */
  predicate IsShare(share: Option<nat>, part: nat, whole: nat) {
    match share
    case None => whole == 0
    case Some(q) => whole > 0 && q <= BASIS_POINTS_PER_UNIT && Nearest(q, part * BASIS_POINTS_PER_UNIT, whole)
  }

  /** The cell is about the tasks of the job that have truth: how many there are and
      how many are left out, the shares of the right results in all they returned
      and in all their truth, what their outputs cost, and that cost for each right
      result. */
  predicate Measures(cell: Cell, binary: Binary, job: Job) {
    var (kind, n) := (cell.kind, |job.tasks|);
    var (returned, wanted) := (Returned(binary, job, kind, n), Wanted(job, kind, n));
    && cell.excluded == |Untruthed(job, kind, n)| && cell.tasks + cell.excluded == n
    && cell.correct == |returned * wanted|
    && IsShare(cell.precisionBps, cell.correct, |returned|) && IsShare(cell.recallBps, cell.correct, |wanted|)
    && cell.bytes == Total(binary, job, kind, BytesOf(), n) && cell.tokens == Total(binary, job, kind, TokensOf(), n)
    && match cell.bytesPerCorrect
       case None => cell.correct == 0
       case Some(q) => cell.correct > 0 && Nearest(q, cell.bytes, cell.correct)
  }

  /** Every row of a run is well shaped, and each cell measures its tasks. */
  lemma RowIsSound(r: RepoReport, binary: Binary, job: Job)
    requires RowOf(r, binary, job)
    ensures r.repo == job.repo && WellShaped(r)
    ensures r.status == Measured <==>
      job.checkout.Ok? && binary.index.Ok? && AllAnswered(binary, job, Symbol) && AllAnswered(binary, job, Refs)
    ensures forall i :: 0 <= i < |r.cells| ==> Measures(r.cells[i], binary, job)
  {
    MeasuredExactly(binary, job);
    if RepoOutcome(binary, job).Ok? {
      KindIsSound(binary, job, Symbol);
      KindIsSound(binary, job, Refs);
    }
  }

  lemma ShareIs<T>(part: set<T>, whole: set<T>)
    requires part <= whole
    ensures IsShare(if whole == {} then None else Some(Ratio(|part|, |whole|)), |part|, |whole|)
  {
    if whole != {} {
      assert whole == part + (whole - part);
      var q := RoundDiv(|part| * BASIS_POINTS_PER_UNIT, |whole|);
      RoundDivIsNearest(q, |part| * BASIS_POINTS_PER_UNIT, |whole|);
      RatioIsNearest(|part|, |whole|, q);
    }
  }

  lemma KindIsSound(binary: Binary, job: Job, kind: QueryKind)
    requires TallyOf(binary, job, kind, |job.tasks|).Ok?
    ensures Measures(CellOf(TallyOf(binary, job, kind, |job.tasks|).value, kind), binary, job)
  {
    var (c, n) := (TallyOf(binary, job, kind, |job.tasks|).value, |job.tasks|);
    RunTallyIsExact(binary, job, kind, n);
    TallySplitsTasks(binary, job, kind, n);
    TallySums(binary, job, kind);
    CellIsPooled(c, Indices(n), kind);
    var (r, t) := (ToSet(c.retrieved), ToSet(c.truth));
    ShareIs(r * t, r);
    ShareIs(r * t, t);
    if c.correct > 0 {
      RoundDivIsNearest(RoundDiv(c.bytes, c.correct), c.bytes, c.correct);
    }
  }

  // ---- No correct result is free.

  /** Each parsed result has brackets of its own in the output, so it takes at
      least one byte and one token. */
  ghost predicate Bracketed(binary: Binary, job: Job, kind: QueryKind) {
    forall i: nat :: i < |job.tasks| && binary.answer(kind, i).Ok? && binary.answer(kind, i).value.results.Ok? ==>
      var out := binary.answer(kind, i).value;
      |out.results.value| <= out.bytes && |out.results.value| <= out.tokens
  }

  ghost function PaidAt(): (Counts, nat) -> bool {
    (c: Counts, _: nat) => c.correct <= c.bytes && c.correct <= c.tokens
  }

  lemma {:induction false} ToSetSize(locs: seq<Loc>)
    ensures |ToSet(locs)| <= |locs|
  {
    if locs != [] {
      var (front, last) := (locs[..|locs| - 1], locs[|locs| - 1]);
      assert locs == front + [last];
      ToSetSize(front);
      ToSetStep(front, last);
    }
  }

  lemma PartSize(a: set<Loc>, b: set<Loc>)
    ensures |a * b| <= |a|
  {
    assert a == a * b + (a - b);
  }

  lemma StepKeepsPaid(binary: Binary, job: Job, kind: QueryKind, c: Counts, i: nat)
    requires i < |job.tasks| && Bracketed(binary, job, kind)
    requires PaidAt()(c, i) && StepOf(binary, job, kind)(c, i).Ok?
    ensures PaidAt()(StepOf(binary, job, kind)(c, i).value, i + 1)
  {
    var wanted := TruthFor(kind, job.tasks[i], job);
    if wanted.Some? {
      var results := binary.answer(kind, i).value.results.value;
      ToSetSize(results);
      PartSize(ToSet(results), ToSet(wanted.value));
    }
  }

  lemma StepsKeepPaid(binary: Binary, job: Job, kind: QueryKind, step: Stepper, holds: (Counts, nat) -> bool)
    requires step == StepOf(binary, job, kind) && holds == PaidAt() && Bracketed(binary, job, kind)
    ensures StepsKeep(step, holds, |job.tasks|)
  {
    forall c, i: nat | i < |job.tasks| && holds(c, i) && step(c, i).Ok? ensures holds(step(c, i).value, i + 1) {
      StepKeepsPaid(binary, job, kind, c, i);
    }
  }

  lemma TallyIsPaid(binary: Binary, job: Job, kind: QueryKind)
    requires Bracketed(binary, job, kind) && TallyOf(binary, job, kind, |job.tasks|).Ok?
    ensures var c := TallyOf(binary, job, kind, |job.tasks|).value;
      c.correct <= c.bytes && c.correct <= c.tokens
  {
    var (step, holds) := (StepOf(binary, job, kind), PaidAt());
    StepsKeepPaid(binary, job, kind, step, holds);
    FoldHolds(step, holds, |job.tasks|);
  }

  lemma PaidCost(cost: nat, correct: nat)
    requires 0 < correct <= cost
    ensures RoundDiv(cost, correct) > 0
  {
    RoundDivMono(correct, cost, correct);
    assert RoundDiv(correct, correct) == 3 * correct / (2 * correct);
  }

  /** A cell of the runner with a correct result has no cost that rounds to zero. */
  lemma CostsAreNotZero(r: RepoReport, binary: Binary, job: Job, k: nat)
    requires RowOf(r, binary, job) && k < |r.cells| && Bracketed(binary, job, r.cells[k].kind)
    ensures var cell := r.cells[k];
      cell.correct > 0 ==> RoundDiv(cell.bytes, cell.correct) > 0 && RoundDiv(cell.tokens, cell.correct) > 0
  {
    var cell := r.cells[k];
    TallyIsPaid(binary, job, cell.kind);
    if cell.correct > 0 {
      PaidCost(cell.bytes, cell.correct);
      PaidCost(cell.tokens, cell.correct);
    }
  }

  method RunRow(binary: Binary, job: Job) returns (r: RepoReport)
    ensures RowOf(r, binary, job)
  {
    var outcome := RunRepo(binary, job);
    r := match outcome
      case Ok(cells) => RepoReport(job.repo, Measured, cells)
      case Err(reason) => RepoReport(job.repo, Failed(reason), []);
  }

  datatype RunnerError = VersionError(baseline: nat, tasks: nat)

  /** Runs every job, one row each, in order. A task set of another version than
      the baseline's is refused. */
  method Run(binaries: seq<Binary>, tasksVersion: nat, baselineVersion: nat, jobs: seq<Job>)
    returns (report: Result<Report, RunnerError>)
    requires |binaries| == |jobs|
    ensures report.Ok? <==> tasksVersion == baselineVersion
    ensures report.Err? ==> report.error == VersionError(baselineVersion, tasksVersion)
    ensures report.Ok? ==> report.value.tasksVersion == tasksVersion && |report.value.repos| == |jobs|
    ensures report.Ok? ==> forall i :: 0 <= i < |jobs| ==> RowOf(report.value.repos[i], binaries[i], jobs[i])
  {
    if tasksVersion != baselineVersion {
      return Err(VersionError(baselineVersion, tasksVersion));
    }
    var repos: seq<RepoReport> := [];
    for i := 0 to |jobs|
      invariant |repos| == i
      invariant forall k :: 0 <= k < i ==> RowOf(repos[k], binaries[k], jobs[k])
    {
      var row := RunRow(binaries[i], jobs[i]);
      repos := repos + [row];
    }
    report := Ok(Report(tasksVersion, repos));
  }
}
