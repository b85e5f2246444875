/** Every interleaving of `prepare`, `commit` and `record` by binaries of mixed
    versions. */
module NoticeRuns {
  import opened Base
  import opened Store
  import opened Versions
  import opened Notices

  type Pid = nat

  datatype Process = Fresh(version: string) | Prepared(version: string, pending: Pending) | Gone

  /** `shown` lists the versions whose release line a commit returned. */
  datatype State = State(rows: Rows, procs: map<Pid, Process>, shown: seq<string>)

  datatype Step =
    | Launch(p: Pid, version: string)
    | Prep(p: Pid, readable: bool, binary: Option<string>, older: bool)
    | DoCommit(p: Pid, writable: bool)
    | Record(version: string, writable: bool)          // the caller printed the notes of the version itself
    | OtherRows(rows: Rows)
    | Crash(p: Pid)

  function Stored(s: State): Option<string> {
    Filled(s.rows, BINARY_KEY)
  }

  predicate Enabled(s: State, step: Step) {
    match step
    case Launch(p, _) => p !in s.procs
    case Prep(p, _, _, _) => p in s.procs && s.procs[p].Fresh?
    case DoCommit(p, _) => p in s.procs && s.procs[p].Prepared?
    case Record(_, _) => true
    case OtherRows(rows) => Filled(rows, BINARY_KEY) == Stored(s)
    case Crash(p) => p in s.procs
  }

  function After(s: State, step: Step): State
    requires Enabled(s, step)
  {
    match step
    case Launch(p, version) => s.(procs := s.procs[p := Fresh(version)])
    case Prep(p, readable, binary, older) =>
      var version := s.procs[p].version;
      s.(procs := s.procs[p := Prepared(version, Prepare(s.rows, readable, version, binary, older))])
    case DoCommit(p, writable) =>
      var pending := s.procs[p].pending;
      var moved := writable && Wins(pending, s.rows);
      State(if moved then Committed(pending, s.rows) else s.rows,
            s.procs[p := Gone],
            if moved && pending.line.Some? then s.shown + [pending.line.value.to] else s.shown)
    case Record(version, writable) => if writable then s.(rows := Recorded(s.rows, version)) else s
    case OtherRows(rows) => s.(rows := rows)
    case Crash(p) => s.(procs := s.procs[p := Gone])
  }

  /** A run by binaries of these versions, from a store that names one of them
      or nothing. */
  ghost predicate IsRun(states: seq<State>, steps: seq<Step>, versions: set<string>) {
    && |states| == |steps| + 1
    && states[0].procs == map[] && states[0].shown == []
    && (Stored(states[0]).Some? ==> Stored(states[0]).value in versions)
    && forall i :: 0 <= i < |steps| ==>
      && Enabled(states[i], steps[i]) && states[i + 1] == After(states[i], steps[i])
      && (steps[i].Launch? || steps[i].Record? ==> steps[i].version in versions)
  }

  /** A record that is stored names no lower version than the stored one. */
  ghost predicate GoesUp(s: State, step: Step) {
    step.Record? && step.writable ==> NotAbove(Stored(s), Some(step.version))
  }

  ghost predicate RecordsGoUp(states: seq<State>, steps: seq<Step>)
    requires |states| == |steps| + 1
  {
    forall i :: 0 <= i < |steps| ==> GoesUp(states[i], steps[i])
  }

  ghost predicate NeverDown(states: seq<State>) {
    forall i, j :: 0 <= i <= j < |states| ==> NotAbove(Stored(states[i]), Stored(states[j]))
  }

  ghost predicate NoRepeat(shown: seq<string>) {
    forall i, j :: 0 <= i < j < |shown| ==> shown[i] != shown[j]
  }

  // ---- One binary alone.

  /** A binary that prepares and commits before any other step moves the key and
      shows its line as that commit does; it can end at any point without either. */
  lemma AloneIsCommitted(
    s: State, p: Pid, version: string, readable: bool, binary: Option<string>, older: bool, writable: bool)
    requires p !in s.procs
    ensures var pending := Prepare(s.rows, readable, version, binary, older);
      var launched := After(s, Launch(p, version));
      var prepared := After(launched, Prep(p, readable, binary, older));
      var done := After(prepared, DoCommit(p, writable));
      && launched.rows == prepared.rows == s.rows && launched.shown == prepared.shown == s.shown
      && done.rows == (if writable then Committed(pending, s.rows) else s.rows)
      && done.shown == s.shown + (if writable && pending.line.Some? then [version] else [])
      && After(launched, Crash(p)).rows == After(prepared, Crash(p)).rows == s.rows
      && After(launched, Crash(p)).shown == After(prepared, Crash(p)).shown == s.shown
      && !Enabled(launched, Launch(p, version)) && !Enabled(s, Crash(p))
  {
  }

  // ---- Transitive versions are enough.

  /** A prepared move goes up, and shows a line only when it really goes up. */
  ghost predicate PendingInv(pending: Pending, version: string) {
    && (pending.line.Some? ==> pending.change.Some? && pending.line.value.to == version)
    && (pending.change.Some? ==>
          var (before, to) := pending.change.value;
          && to == version
          && (before.Some? ==> AtMost(before.value, to))
          && (before.Some? && pending.line.Some? ==> Compare(before.value, to) == Less))
  }

  ghost predicate Inv(s: State, versions: set<string>) {
    && (Stored(s).Some? ==> Stored(s).value in versions)
    && (forall i :: 0 <= i < |s.shown| ==> s.shown[i] in versions && NotAbove(Some(s.shown[i]), Stored(s)))
    && NoRepeat(s.shown)
    && (forall p :: p in s.procs && !s.procs[p].Gone? ==> s.procs[p].version in versions)
    && (forall p :: p in s.procs && s.procs[p].Prepared? ==> PendingInv(s.procs[p].pending, s.procs[p].version))
  }

  lemma CommitKeepsInv(s: State, step: Step, versions: set<string>)
    requires TransitiveOn(versions) && "" !in versions && Inv(s, versions)
    requires step.DoCommit? && Enabled(s, step)
    ensures Inv(After(s, step), versions)
    ensures NotAbove(Stored(s), Stored(After(s, step)))
  {
    var (pending, version) := (s.procs[step.p].pending, s.procs[step.p].version);
    var t := After(s, step);
    if Stored(s).Some? {
      CompareFlip(Stored(s).value, version);
    }
    if step.writable && Wins(pending, s.rows) {
      assert Stored(t) == Some(version);
      CompareFlip(version, version);
      forall i | 0 <= i < |s.shown| ensures NotAbove(Some(s.shown[i]), Stored(t)) {
        assert NotAbove(Some(s.shown[i]), Stored(s));
      }
      if pending.line.Some? && version in s.shown {
        assert false;
      }
    } else if Stored(s).Some? {
      CompareFlip(Stored(s).value, Stored(s).value);
    }
  }

  lemma RecordKeepsInv(s: State, version: string, writable: bool, versions: set<string>)
    requires TransitiveOn(versions) && "" !in versions && Inv(s, versions) && version in versions
    requires writable ==> NotAbove(Stored(s), Some(version))
    ensures Inv(After(s, Record(version, writable)), versions)
    ensures NotAbove(Stored(s), Stored(After(s, Record(version, writable))))
  {
    if writable {
      assert Stored(After(s, Record(version, writable))) == Some(version);
      forall i | 0 <= i < |s.shown| ensures NotAbove(Some(s.shown[i]), Some(version)) {
        assert NotAbove(Some(s.shown[i]), Stored(s));
      }
    } else if Stored(s).Some? {
      CompareFlip(Stored(s).value, Stored(s).value);
    }
  }

  lemma StepKeepsInv(s: State, step: Step, versions: set<string>)
    requires TransitiveOn(versions) && "" !in versions && Inv(s, versions) && Enabled(s, step)
    requires step.Launch? || step.Record? ==> step.version in versions
    requires GoesUp(s, step)
    ensures Inv(After(s, step), versions)
    ensures NotAbove(Stored(s), Stored(After(s, step)))
  {
    if step.DoCommit? {
      CommitKeepsInv(s, step, versions);
    } else if step.Record? {
      RecordKeepsInv(s, step.version, step.writable, versions);
    } else if Stored(s).Some? {
      CompareFlip(Stored(s).value, Stored(s).value);
    }
  }

  lemma {:induction false} InvAlways(states: seq<State>, steps: seq<Step>, versions: set<string>, n: nat)
    requires TransitiveOn(versions) && "" !in versions && IsRun(states, steps, versions) && RecordsGoUp(states, steps)
    requires n < |states|
    ensures Inv(states[n], versions)
    ensures n > 0 ==> NotAbove(Stored(states[n - 1]), Stored(states[n]))
  {
    if n > 0 {
      InvAlways(states, steps, versions, n - 1);
      StepKeepsInv(states[n - 1], steps[n - 1], versions);
      assert states[n - 1 + 1] == After(states[n - 1], steps[n - 1]);
    }
  }

  lemma {:induction false} Chained(le: (nat, nat) -> bool, i: nat, j: nat)
    requires i <= j && le(i, i)
    requires forall k: nat, l: nat :: l == k + 1 && l <= j ==> le(k, l)
    requires forall k: nat, l: nat, m: nat {:trigger le(k, l), le(l, m)} ::
      k <= l <= m <= j && le(k, l) && le(l, m) ==> le(k, m)
    ensures le(i, j)
  {
    if i < j {
      Chained(le, i, j - 1);
      assert le(j - 1, j);
    }
  }

  ghost function StoredInOrder(states: seq<State>): (nat, nat) -> bool {
    (i: nat, j: nat) => i < |states| && j < |states| && NotAbove(Stored(states[i]), Stored(states[j]))
  }

  lemma OrderChains(states: seq<State>, versions: set<string>, k: nat, l: nat, m: nat)
    requires TransitiveOn(versions) && StoredInOrder(states)(k, l) && StoredInOrder(states)(l, m)
    requires forall n :: 0 <= n < |states| ==> Within(Stored(states[n]), versions)
    ensures StoredInOrder(states)(k, m)
  {
    NotAboveChains(Stored(states[k]), Stored(states[l]), Stored(states[m]), versions);
  }

  /** Over any run of binaries whose versions are ordered transitively, and whose
      records go up, the stored version never goes below any earlier one. */
  lemma RunKeepsInv(states: seq<State>, steps: seq<Step>, versions: set<string>, i: nat, j: nat)
    requires TransitiveOn(versions) && "" !in versions && IsRun(states, steps, versions) && RecordsGoUp(states, steps)
    requires i <= j < |states|
    ensures Inv(states[j], versions)
    ensures NotAbove(Stored(states[i]), Stored(states[j]))
  {
    var le := StoredInOrder(states);
    forall n | 0 <= n < |states| ensures Within(Stored(states[n]), versions) {
      InvAlways(states, steps, versions, n);
    }
    InvAlways(states, steps, versions, j);
    NotAboveItself(Stored(states[i]));
    forall k: nat, l: nat | l == k + 1 && l <= j ensures le(k, l) {
      InvAlways(states, steps, versions, l);
    }
    forall k: nat, l: nat, m: nat | k <= l <= m <= j && le(k, l) && le(l, m) ensures le(k, m) {
      OrderChains(states, versions, k, l, m);
    }
    Chained(le, i, j);
  }

  /** Over a transitive version set the stored version never goes down exactly
      when no record goes down, and then no release line is shown twice. */
  lemma NeverDownExactly(states: seq<State>, steps: seq<Step>, versions: set<string>)
    requires TransitiveOn(versions) && "" !in versions && IsRun(states, steps, versions)
    ensures NeverDown(states) <==> RecordsGoUp(states, steps)
    ensures RecordsGoUp(states, steps) ==> NoRepeat(states[|steps|].shown)
  {
    if RecordsGoUp(states, steps) {
      forall i, j | 0 <= i <= j < |states| ensures NotAbove(Stored(states[i]), Stored(states[j])) {
        RunKeepsInv(states, steps, versions, i, j);
      }
      RunKeepsInv(states, steps, versions, |steps|, |steps|);
    }
    if NeverDown(states) {
      forall i | 0 <= i < |steps| ensures GoesUp(states[i], steps[i]) {
        assert states[i + 1] == After(states[i], steps[i]);
        assert NotAbove(Stored(states[i]), Stored(states[i + 1]));
      }
    }
  }

  // ---- They are also necessary.

  ghost predicate NoRecords(steps: seq<Step>) {
    forall i :: 0 <= i < |steps| ==> !steps[i].Record?
  }

  function EpisodeStates(s: State, p: Pid, from: string, version: string): (r: (State, State, State))
    requires p !in s.procs
  {
    var line := if Compare(from, version) == Less then Some(Line(Some(from), version)) else None;
    var pending := Pending(Some((Some(from), version)), line);
    var a := s.(procs := s.procs[p := Fresh(version)]);
    var b := a.(procs := s.procs[p := Prepared(version, pending)]);
    (a, b, State(Committed(pending, s.rows), s.procs[p := Gone], if line.Some? then s.shown + [version] else s.shown))
  }

  /** The step leads from the one state to the other. */
  ghost predicate Leads(s: State, step: Step, t: State, versions: set<string>) {
    && Enabled(s, step) && t == After(s, step)
    && (step.Launch? || step.Record? ==> step.version in versions)
  }

  ghost predicate Stretch(next: seq<State>, more: seq<Step>, versions: set<string>) {
    && |next| == |more| + 1
    && forall i :: 0 <= i < |more| ==> Leads(next[i], more[i], next[i + 1], versions)
  }

  /** A run goes on with a stretch of steps. */
  lemma Extends(states: seq<State>, steps: seq<Step>, next: seq<State>, more: seq<Step>, versions: set<string>)
    requires IsRun(states, steps, versions) && Stretch(next, more, versions) && next[0] == states[|steps|]
    ensures IsRun(states + next[1..], steps + more, versions)
    ensures NoRecords(steps) && NoRecords(more) ==> NoRecords(steps + more)
    ensures (states + next[1..])[|steps + more|] == next[|more|]
  {
    var (all, allSteps) := (states + next[1..], steps + more);
    forall i | 0 <= i < |next| ensures all[|steps| + i] == next[i] {
    }
    forall i | 0 <= i < |allSteps|
      ensures Enabled(all[i], allSteps[i]) && all[i + 1] == After(all[i], allSteps[i])
      ensures allSteps[i].Launch? || allSteps[i].Record? ==> allSteps[i].version in versions
    {
      if i >= |steps| {
        var k := i - |steps|;
        assert all[|steps| + k] == next[k] && all[|steps| + (k + 1)] == next[k + 1] && allSteps[i] == more[k];
        assert Leads(next[k], more[k], next[k + 1], versions);
      }
    }
  }

  lemma ThreeSteps(s: State, a: State, b: State, c: State, s0: Step, s1: Step, s2: Step, versions: set<string>)
    requires Leads(s, s0, a, versions) && Leads(a, s1, b, versions) && Leads(b, s2, c, versions)
    ensures Stretch([s, a, b, c], [s0, s1, s2], versions)
  {
    var (next, more) := ([s, a, b, c], [s0, s1, s2]);
    forall i | 0 <= i < |more| ensures Leads(next[i], more[i], next[i + 1], versions) {
    }
  }

  lemma EpisodePrepares(s: State, p: Pid, from: string, version: string, versions: set<string>)
    requires p !in s.procs && from != version && AtMost(from, version) && Stored(s) == Some(from) && version in versions
    ensures var r := EpisodeStates(s, p, from, version);
      Leads(s, Launch(p, version), r.0, versions) && Leads(r.0, Prep(p, true, None, false), r.1, versions)
  {
    var r := EpisodeStates(s, p, from, version);
    assert r.0.procs[p := r.1.procs[p]] == r.1.procs;
  }

  lemma EpisodeCommits(s: State, p: Pid, from: string, version: string, versions: set<string>)
    requires p !in s.procs && version != "" && Stored(s) == Some(from)
    ensures var r := EpisodeStates(s, p, from, version);
      Leads(r.1, DoCommit(p, true), r.2, versions) && Stored(r.2) == Some(version)
  {
    var r := EpisodeStates(s, p, from, version);
    assert r.1.procs[p := Gone] == r.2.procs;
  }

  lemma EpisodeRuns(s: State, p: Pid, from: string, version: string, versions: set<string>)
    requires p !in s.procs && version != "" && from != version && AtMost(from, version) && version in versions
    requires Stored(s) == Some(from)
    ensures var r := EpisodeStates(s, p, from, version);
      && Leads(s, Launch(p, version), r.0, versions)
      && Leads(r.0, Prep(p, true, None, false), r.1, versions)
      && Leads(r.1, DoCommit(p, true), r.2, versions)
      && Stored(r.2) == Some(version)
  {
    EpisodePrepares(s, p, from, version, versions);
    EpisodeCommits(s, p, from, version, versions);
  }

  /** One binary prepares and commits without a break. */
  lemma EpisodeExtends(states: seq<State>, steps: seq<Step>, versions: set<string>, p: Pid, from: string,
                       version: string)
    returns (all: seq<State>, allSteps: seq<Step>)
    requires IsRun(states, steps, versions) && p !in states[|steps|].procs
    requires version in versions && version != "" && from != version && AtMost(from, version)
    requires Stored(states[|steps|]) == Some(from)
    ensures IsRun(all, allSteps, versions) && |allSteps| == |steps| + 3
    ensures NoRecords(steps) ==> NoRecords(allSteps)
    ensures forall i :: 0 <= i < |states| ==> all[i] == states[i]
    ensures var (s, t) := (states[|steps|], all[|allSteps|]);
      && Stored(t) == Some(version) && t.procs.Keys == s.procs.Keys + {p}
      && t.shown == if Compare(from, version) == Less then s.shown + [version] else s.shown
  {
    var s := states[|steps|];
    var r := EpisodeStates(s, p, from, version);
    EpisodeRuns(s, p, from, version, versions);
    ThreeSteps(s, r.0, r.1, r.2, Launch(p, version), Prep(p, true, None, false), DoCommit(p, true), versions);
    var (next, more) := ([s, r.0, r.1, r.2], [Launch(p, version), Prep(p, true, None, false), DoCommit(p, true)]);
    Extends(states, steps, next, more, versions);
    all, allSteps := states + next[1..], steps + more;
  }

  lemma TwoEpisodes(versions: set<string>, a: string, b: string, c: string)
    returns (states: seq<State>, steps: seq<Step>)
    requires a in versions && b in versions && c in versions && "" !in versions
    requires AtMost(a, b) && a != b && a != c && Compare(c, a) == Less
    ensures IsRun(states, steps, versions) && |steps| == 6 && NoRecords(steps)
    ensures Stored(states[3]) == Some(a) && Stored(states[6]) == Some(b)
    ensures states[6].procs.Keys == {0, 1} && states[6].shown != [] && states[6].shown[0] == a
  {
    var start := State(map[BINARY_KEY := c], map[], []);
    var one, oneSteps := EpisodeExtends([start], [], versions, 0, c, a);
    states, steps := EpisodeExtends(one, oneSteps, versions, 1, a, b);
    assert states[3] == one[3];
  }

  lemma TwoMoreEpisodes(two: seq<State>, twoSteps: seq<Step>, versions: set<string>, a: string, b: string, c: string)
    returns (states: seq<State>, steps: seq<Step>)
    requires a in versions && b in versions && c in versions && "" !in versions
    requires AtMost(b, c) && b != c && AtMost(c, a) && c != a && Compare(c, a) == Less
    requires IsRun(two, twoSteps, versions) && |twoSteps| == 6 && NoRecords(twoSteps)
    requires Stored(two[6]) == Some(b) && two[6].procs.Keys == {0, 1} && two[6].shown != []
    ensures IsRun(states, steps, versions) && |steps| == 12 && NoRecords(steps)
    ensures states[3] == two[3] && Stored(states[9]) == Some(c)
    ensures var shown := states[12].shown;
      |shown| > |two[6].shown| && shown[0] == two[6].shown[0] && shown[|shown| - 1] == a
  {
    var three, threeSteps := EpisodeExtends(two, twoSteps, versions, 2, b, c);
    states, steps := EpisodeExtends(three, threeSteps, versions, 3, c, a);
    assert states[3] == three[3] && states[9] == three[9];
  }

  lemma FallsBetween(states: seq<State>, i: nat, j: nat, a: string, c: string)
    requires i <= j < |states| && Stored(states[i]) == Some(a) && Stored(states[j]) == Some(c) && !AtMost(a, c)
    ensures !NeverDown(states)
  {
    assert !NotAbove(Stored(states[i]), Stored(states[j]));
  }

  lemma RepeatsAtEnd(shown: seq<string>, a: string)
    requires |shown| > 1 && shown[0] == a && shown[|shown| - 1] == a
    ensures !NoRepeat(shown)
  {
  }

  /** Three versions that break transitivity send the key back below its start,
      and show the line of the first one twice. */
  lemma BrokenOrderRun(versions: set<string>, a: string, b: string, c: string)
    returns (states: seq<State>, steps: seq<Step>)
    requires a in versions && b in versions && c in versions && "" !in versions
    requires AtMost(a, b) && AtMost(b, c) && !AtMost(a, c)
    ensures IsRun(states, steps, versions) && NoRecords(steps) && !NeverDown(states)
    ensures !NoRepeat(states[|steps|].shown)
  {
    CompareFlip(a, c);
    CompareFlip(a, a);
    var two, twoSteps := TwoEpisodes(versions, a, b, c);
    states, steps := TwoMoreEpisodes(two, twoSteps, versions, a, b, c);
    FallsBetween(states, 3, 9, a, c);
    RepeatsAtEnd(states[|steps|].shown, a);
  }

  /** The show-once theorem: whatever order the steps run in, and unless a record
      goes down, the stored version never goes down and no release line is shown
      twice, exactly when the version order is transitive on the versions that
      run. */
  lemma ShownOnceExactly(versions: set<string>)
    requires "" !in versions
    ensures TransitiveOn(versions) <==>
      forall states: seq<State>, steps: seq<Step> :: IsRun(states, steps, versions) && RecordsGoUp(states, steps) ==>
        NeverDown(states) && NoRepeat(states[|steps|].shown)
  {
    if TransitiveOn(versions) {
      forall states: seq<State>, steps: seq<Step> | IsRun(states, steps, versions) && RecordsGoUp(states, steps)
        ensures NeverDown(states) && NoRepeat(states[|steps|].shown)
      {
        NeverDownExactly(states, steps, versions);
      }
    } else {
      var a, b, c :| a in versions && b in versions && c in versions && AtMost(a, b) && AtMost(b, c) && !AtMost(a, c);
      var states, steps := BrokenOrderRun(versions, a, b, c);
      assert RecordsGoUp(states, steps);
    }
  }

  // ---- Records that may go down.

  /** A record between two upgrades to the same version sends the key down, and
      shows the line of that version twice. */
  lemma LoweringRun(versions: set<string>, a: string, b: string) returns (states: seq<State>, steps: seq<Step>)
    requires a in versions && b in versions && "" !in versions && Compare(a, b) == Less
    ensures IsRun(states, steps, versions) && !NeverDown(states)
    ensures states[|steps|].shown == [b, b]
  {
    CompareFlip(a, b);
    CompareFlip(a, a);
    var start := State(map[BINARY_KEY := a], map[], []);
    var one, oneSteps := EpisodeExtends([start], [], versions, 0, a, b);
    var s, record := one[|oneSteps|], Record(a, true);
    var next := [s, After(s, record)];
    assert Leads(next[0], record, next[1], versions);
    Extends(one, oneSteps, next, [record], versions);
    states, steps := EpisodeExtends(one + next[1..], oneSteps + [record], versions, 1, a, b);
    assert states[3] == one[3] && states[4] == next[1];
    FallsBetween(states, 3, 4, b, a);
  }

  lemma {:induction false} FlatInv(states: seq<State>, steps: seq<Step>, versions: set<string>, n: nat)
    requires NoneBelow(versions) && TransitiveOn(versions) && "" !in versions && IsRun(states, steps, versions)
    requires n < |states|
    ensures Inv(states[n], versions)
    ensures n < |steps| ==> GoesUp(states[n], steps[n])
  {
    if n > 0 {
      FlatInv(states, steps, versions, n - 1);
      StepKeepsInv(states[n - 1], steps[n - 1], versions);
      assert states[n - 1 + 1] == After(states[n - 1], steps[n - 1]);
    }
    if n < |steps| && steps[n].Record? && Stored(states[n]).Some? {
      CompareFlip(Stored(states[n]).value, steps[n].version);
    }
  }

  /** With records of any version, no run goes down and none shows a line twice
      exactly when no version that runs is below another one. */
  lemma AnyRecordsExactly(versions: set<string>)
    requires "" !in versions
    ensures NoneBelow(versions) <==>
      forall states: seq<State>, steps: seq<Step> :: IsRun(states, steps, versions) ==>
        NeverDown(states) && NoRepeat(states[|steps|].shown)
  {
    if NoneBelow(versions) {
      NoneBelowIsTransitive(versions);
      forall states: seq<State>, steps: seq<Step> | IsRun(states, steps, versions)
        ensures NeverDown(states) && NoRepeat(states[|steps|].shown)
      {
        forall i | 0 <= i < |steps| ensures GoesUp(states[i], steps[i]) {
          FlatInv(states, steps, versions, i);
        }
        NeverDownExactly(states, steps, versions);
      }
    } else {
      var a, b :| a in versions && b in versions && Compare(a, b) == Less;
      var states, steps := LoweringRun(versions, a, b);
    }
  }
}
