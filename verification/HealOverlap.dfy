/** Heal runs that overlap: the record is read before the migrations run under
    their lock, and written after the lock was given back. */
module HealOverlap {
  import opened Base
  import opened Text
  import opened Store
  import opened Heal
  import opened HealRuns
  import opened Versions

  type Pid = nat

  /** A run that was admitted goes on with the record it read. */
  datatype Process = Began(run: Run, record: Record) | Gone {
    function Order(): Order
      requires Began?
    {
      CompareWith(record, run.running)
    }

    /** The write names this binary as the recorded one. */
    predicate Names()
      requires Began?
    {
      && run.world.writable
      && match run.trigger
         case Init(failed, _) => !failed
         case _ => Starts(run.trigger, Order(), Waiting(record, run.now)) && Clean(run.world.report)
    }
  }

  datatype State = State(rows: Rows, procs: map<Pid, Process>)

  datatype Step =
    | Read(p: Pid, run: Run)
    | Write(p: Pid)
    | OtherRows(rows: Rows)
    | Crash(p: Pid)

  predicate Enabled(s: State, step: Step) {
    match step
    case Read(p, _) => p !in s.procs
    case Write(p) => p in s.procs && s.procs[p].Began?
    case OtherRows(rows) => Binary(rows) == Binary(s.rows)
    case Crash(p) => p in s.procs
  }

  function Written(rows: Rows, process: Process): Rows
    requires process.Began?
  {
    var (run, r) := (process.run, process.record);
    HealedFor(rows, run.trigger, run.now, run.running, run.world, r, process.Order()).0
  }

  function After(s: State, step: Step): State
    requires Enabled(s, step)
  {
    match step
    case Read(p, run) =>
      s.(procs := s.procs[p := if Admitted(s.rows, run) then Began(run, FromRows(s.rows, run.world.legacy)) else Gone])
    case Write(p) => State(Written(s.rows, s.procs[p]), s.procs[p := Gone])
    case OtherRows(rows) => s.(rows := rows)
    case Crash(p) => s.(procs := s.procs[p := Gone])
  }

  /** A run by binaries of these versions, from a record that names one of them
      or nothing. */
  ghost predicate IsRun(states: seq<State>, steps: seq<Step>, versions: set<string>) {
    && |states| == |steps| + 1
    && states[0].procs == map[] && Within(Binary(states[0].rows), versions)
    && forall i :: 0 <= i < |steps| ==>
      && Enabled(states[i], steps[i]) && states[i + 1] == After(states[i], steps[i])
      && (steps[i].Read? ==> steps[i].run.running in versions && steps[i].run.now < U64_LIMIT)
  }

  ghost predicate NeverDown(states: seq<State>) {
    forall i, j :: 0 <= i <= j < |states| ==> NotAbove(Binary(states[i].rows), Binary(states[j].rows))
  }

  /** A write that names its binary finds no higher version recorded. */
  ghost predicate GoesUp(s: State, step: Step) {
    step.Write? && step.p in s.procs && s.procs[step.p].Began? && s.procs[step.p].Names() ==>
      NotAbove(Binary(s.rows), Some(s.procs[step.p].run.running))
  }

  ghost predicate WritesGoUp(states: seq<State>, steps: seq<Step>)
    requires |states| == |steps| + 1
  {
    forall i :: 0 <= i < |steps| ==> GoesUp(states[i], steps[i])
  }

  // ---- Runs that do not overlap are the heal runs.

  /** A run that writes before any other step is one whole heal. */
  lemma AloneIsHealed(s: State, p: Pid, run: Run)
    requires p !in s.procs
    ensures After(After(s, Read(p, run)), Crash(p)).rows == s.rows
    ensures var mid := After(s, Read(p, run));
      if Admitted(s.rows, run) then After(mid, Write(p)).rows == RowsAfter(s.rows, run)
      else mid.rows == RowsAfter(s.rows, run) && !Enabled(mid, Write(p))
  {
  }

  // ---- A transitive order.

  ghost predicate Inv(s: State, versions: set<string>) {
    && Within(Binary(s.rows), versions)
    && forall p :: p in s.procs && s.procs[p].Began? ==>
      var run := s.procs[p].run;
      run.running in versions && run.now < U64_LIMIT && s.procs[p].Order() != Greater
  }

  /** What a write leaves as the recorded version, however old its record is. */
  lemma WriteMoves(rows: Rows, process: Process)
    requires process.Began? && process.Order() != Greater
    requires process.run.running != "" && process.run.now < U64_LIMIT
    ensures Binary(Written(rows, process)) == if process.Names() then Some(process.run.running) else Binary(rows)
  {
    HealedForCore(rows, process.run, process.record, process.Order());
  }

  lemma StepKeepsInv(s: State, step: Step, versions: set<string>)
    requires "" !in versions && Inv(s, versions) && Enabled(s, step)
    requires step.Read? ==> step.run.running in versions && step.run.now < U64_LIMIT
    ensures Inv(After(s, step), versions)
    ensures NotAbove(Binary(s.rows), Binary(After(s, step).rows)) <==> GoesUp(s, step)
  {
    NotAboveItself(Binary(s.rows));
    if step.Write? {
      WriteMoves(s.rows, s.procs[step.p]);
    }
  }

  lemma {:induction false} InvAlways(states: seq<State>, steps: seq<Step>, versions: set<string>, n: nat)
    requires "" !in versions && IsRun(states, steps, versions) && n < |states|
    ensures Inv(states[n], versions)
    ensures n > 0 ==>
      (NotAbove(Binary(states[n - 1].rows), Binary(states[n].rows)) <==> GoesUp(states[n - 1], steps[n - 1]))
  {
    if n > 0 {
      InvAlways(states, steps, versions, n - 1);
      StepKeepsInv(states[n - 1], steps[n - 1], versions);
      assert states[n - 1 + 1] == After(states[n - 1], steps[n - 1]);
    }
  }

  lemma {:induction false} GoesUpAlong(states: seq<State>, steps: seq<Step>, versions: set<string>, i: nat, j: nat)
    requires TransitiveOn(versions) && "" !in versions && IsRun(states, steps, versions) && WritesGoUp(states, steps)
    requires i <= j < |states|
    ensures NotAbove(Binary(states[i].rows), Binary(states[j].rows))
    decreases j - i
  {
    InvAlways(states, steps, versions, i);
    InvAlways(states, steps, versions, j);
    if i == j {
      NotAboveItself(Binary(states[i].rows));
    } else {
      GoesUpAlong(states, steps, versions, i, j - 1);
      InvAlways(states, steps, versions, j - 1);
      NotAboveChains(Binary(states[i].rows), Binary(states[j - 1].rows), Binary(states[j].rows), versions);
    }
  }

  lemma StepGoesUp(states: seq<State>, steps: seq<Step>, versions: set<string>, i: nat)
    requires "" !in versions && IsRun(states, steps, versions) && NeverDown(states) && i < |steps|
    ensures GoesUp(states[i], steps[i])
  {
    InvAlways(states, steps, versions, i + 1);
    assert NotAbove(Binary(states[i].rows), Binary(states[i + 1].rows));
  }

  /** Over a transitive version set the recorded version never goes down exactly
      when no write names a binary below the one recorded by then. */
  lemma NeverDownExactly(states: seq<State>, steps: seq<Step>, versions: set<string>)
    requires TransitiveOn(versions) && "" !in versions && IsRun(states, steps, versions)
    ensures NeverDown(states) <==> WritesGoUp(states, steps)
  {
    if WritesGoUp(states, steps) {
      forall i, j | 0 <= i <= j < |states| ensures NotAbove(Binary(states[i].rows), Binary(states[j].rows)) {
        GoesUpAlong(states, steps, versions, i, j);
      }
    }
    if NeverDown(states) {
      forall i | 0 <= i < |steps| ensures GoesUp(states[i], steps[i]) {
        StepGoesUp(states, steps, versions, i);
      }
    }
  }

  // ---- An older binary that read first and writes last.

  lemma FixAdmitted(rows: Rows, from: string, to: string)
    requires Binary(rows) == Some(from) && AtMost(from, to)
    ensures Admitted(rows, FixBy(to)) && CompareWith(FromRows(rows, {}), to) != Greater
  {
    assert FromRows(rows, {}).binary == Some(from);
  }

  /** The step leads from the one state to the other. */
  ghost predicate Leads(s: State, step: Step, t: State, versions: set<string>) {
    && Enabled(s, step) && t == After(s, step)
    && (step.Read? ==> step.run.running in versions && step.run.now < U64_LIMIT)
  }

  lemma FourSteps(start: State, one: State, two: State, three: State, four: State,
                  s0: Step, s1: Step, s2: Step, s3: Step, versions: set<string>)
    requires start.procs == map[] && Within(Binary(start.rows), versions)
    requires Leads(start, s0, one, versions) && Leads(one, s1, two, versions)
    requires Leads(two, s2, three, versions) && Leads(three, s3, four, versions)
    requires !NotAbove(Binary(three.rows), Binary(four.rows))
    ensures IsRun([start, one, two, three, four], [s0, s1, s2, s3], versions)
    ensures !NeverDown([start, one, two, three, four])
  {
    var (states, steps) := ([start, one, two, three, four], [s0, s1, s2, s3]);
    forall i | 0 <= i < |steps| ensures Leads(states[i], steps[i], states[i + 1], versions) {
    }
    assert !NotAbove(Binary(states[3].rows), Binary(states[4].rows));
  }

  lemma FixReads(s: State, p: Pid, from: string, to: string, versions: set<string>)
    requires p !in s.procs && Binary(s.rows) == Some(from) && AtMost(from, to) && to in versions
    ensures var began := Began(FixBy(to), FromRows(s.rows, {}));
      && Leads(s, Read(p, FixBy(to)), s.(procs := s.procs[p := began]), versions)
      && began.Order() != Greater
  {
    FixAdmitted(s.rows, from, to);
  }

  lemma FixWrites(s: State, p: Pid, r: Record, to: string, versions: set<string>)
    requires p in s.procs && s.procs[p] == Began(FixBy(to), r) && s.procs[p].Order() != Greater && to != ""
    ensures var t := After(s, Write(p));
      && Leads(s, Write(p), t, versions)
      && Binary(t.rows) == Some(to) && t.procs == s.procs[p := Gone]
  {
    WriteMoves(s.rows, s.procs[p]);
  }

  lemma FixesOverlap(start: State, a: string, b: string, versions: set<string>)
    returns (one: State, two: State, three: State, four: State)
    requires start.procs == map[] && Binary(start.rows) == Some(a) && AtMost(a, a) && AtMost(a, b)
    requires a in versions && b in versions && "" !in versions
    ensures Leads(start, Read(0, FixBy(a)), one, versions) && Leads(one, Read(1, FixBy(b)), two, versions)
    ensures Leads(two, Write(1), three, versions) && Leads(three, Write(0), four, versions)
    ensures Binary(three.rows) == Some(b) && Binary(four.rows) == Some(a)
  {
    var r := FromRows(start.rows, {});
    one := start.(procs := map[0 := Began(FixBy(a), r)]);
    two := one.(procs := one.procs[1 := Began(FixBy(b), r)]);
    FixReads(start, 0, a, a, versions);
    FixReads(one, 1, a, b, versions);
    FixWrites(two, 1, r, b, versions);
    three := After(two, Write(1));
    FixWrites(three, 0, r, a, versions);
    four := After(three, Write(0));
  }

  /** Two clean fixes, the older binary first to read and last to write, leave a
      lower version recorded than was recorded before. */
  lemma LoweringRun(versions: set<string>, a: string, b: string) returns (states: seq<State>, steps: seq<Step>)
    requires a in versions && b in versions && "" !in versions && Compare(a, b) == Less
    ensures IsRun(states, steps, versions) && !NeverDown(states)
    ensures steps == [Read(0, FixBy(a)), Read(1, FixBy(b)), Write(1), Write(0)]
  {
    CompareFlip(a, a);
    CompareFlip(a, b);
    var start := State(map[BINARY_KEY := a], map[]);
    var one, two, three, four := FixesOverlap(start, a, b, versions);
    FourSteps(start, one, two, three, four, Read(0, FixBy(a)), Read(1, FixBy(b)), Write(1), Write(0), versions);
    states, steps := [start, one, two, three, four], [Read(0, FixBy(a)), Read(1, FixBy(b)), Write(1), Write(0)];
  }

  /** Overlapping heals never lower the record exactly when no version that runs
      is below another one. */
  lemma OverlapExactly(versions: set<string>)
    requires "" !in versions
    ensures NoneBelow(versions) <==>
      forall states: seq<State>, steps: seq<Step> :: IsRun(states, steps, versions) ==> NeverDown(states)
  {
    if NoneBelow(versions) {
      NoneBelowIsTransitive(versions);
      forall states: seq<State>, steps: seq<Step> | IsRun(states, steps, versions) ensures NeverDown(states) {
        forall i | 0 <= i < |steps| ensures GoesUp(states[i], steps[i]) {
          InvAlways(states, steps, versions, i);
        }
        NeverDownExactly(states, steps, versions);
      }
    } else {
      var a, b :| a in versions && b in versions && Compare(a, b) == Less;
      var states, steps := LoweringRun(versions, a, b);
    }
  }
}
