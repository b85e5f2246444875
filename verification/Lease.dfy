/** Every interleaving of the processes that share the plugin update marker:
    the terminal trigger (crates/cli/src/plugin_update.rs `start`), the session
    hook with its detached child, and crashes. Each step is one atomic read or
    one transaction. A run is a start state and a list of steps. */
module Lease {
  import opened Base
  import opened Text
  import opened Store
  import opened PluginUpdate
  import Versions

  type Pid = nat

  datatype Pc =
    | Idle
    | HasSeen(seen: Option<string>)
    | IsDue(seen: Option<string>, checked: nat)      // the check said run; the user may be asked now
    | Recording                                      // will write `done`: already current, or declined
    | Held(at: nat)                                  // won the claim, the update has not begun
    | Updating(at: nat)
    | Gone

  datatype Process = Process(version: string, pc: Pc)

  datatype State = State(rows: Rows, clock: nat, procs: map<Pid, Process>, claims: seq<nat>)

  datatype Step =
    | Tick(seconds: nat)
    | OtherRows(rows: Rows)
    | Start(p: Pid, version: string)
    | Read(p: Pid, readable: bool)
    | Check(p: Pid, inputs: DueInputs)
    | TryClaim(p: Pid, at: nat, declined: bool, writable: bool)
    | Begin(p: Pid)                                   // at the terminal
    | BeginChild(p: Pid)                              // the detached child, after its in-flight check
    | SpawnFailed(p: Pid, when: nat, writable: bool)
    | End(p: Pid, outcome: Outcome, installedAfter: Option<string>, when: nat, writable: bool)
    | RecordDone(p: Pid, when: nat, writable: bool)
    | Crash(p: Pid)

  predicate At(s: State, p: Pid) {
    p in s.procs
  }

  /** What a step needs. `at` and `when` are clock readings taken a moment
      before the transaction that stores them. */
  predicate Enabled(s: State, step: Step) {
    match step
    case Tick(_) => true
    case OtherRows(rows) => Seen(rows) == Seen(s.rows)
    case Start(p, _) => p !in s.procs
    case Read(p, _) => At(s, p) && s.procs[p].pc.Idle?
    case Check(p, i) =>
      && At(s, p) && s.procs[p].pc.HasSeen?
      && i.marker == ParseSeen(s.procs[p].pc.seen) && i.running == s.procs[p].version
    case TryClaim(p, at, _, _) => At(s, p) && s.procs[p].pc.IsDue? && s.procs[p].pc.checked <= at <= s.clock
    case Begin(p) => At(s, p) && s.procs[p].pc.Held?
    case BeginChild(p) => At(s, p) && s.procs[p].pc.Held?
    case SpawnFailed(p, when, _) => At(s, p) && s.procs[p].pc.Held? && s.procs[p].pc.at <= when <= s.clock
    case End(p, _, _, when, _) => At(s, p) && s.procs[p].pc.Updating? && s.procs[p].pc.at <= when <= s.clock
    case RecordDone(p, when, _) => At(s, p) && s.procs[p].pc.Recording? && when <= s.clock
    case Crash(p) => At(s, p)
  }

  function Move(s: State, p: Pid, pc: Pc): State
    requires At(s, p)
  {
    s.(procs := s.procs[p := s.procs[p].(pc := pc)])
  }

  function WriteIf(s: State, p: Pid, phase: Phase, when: nat, writable: bool): State
    requires At(s, p)
  {
    var rows := if writable then Written(s.rows, s.procs[p].version, phase, when) else s.rows;
    Move(s, p, Gone).(rows := rows)
  }

  function After(s: State, step: Step): State
    requires Enabled(s, step)
  {
    match step
    case Tick(seconds) => s.(clock := s.clock + seconds)
    case OtherRows(rows) => s.(rows := rows)
    case Start(p, version) => s.(procs := s.procs[p := Process(version, Idle)])
    case Read(p, readable) => Move(s, p, HasSeen(if readable then Seen(s.rows) else None))
    case Check(p, i) =>
      (match DueFrom(i, s.clock)
       case Run(_) => Move(s, p, IsDue(s.procs[p].pc.seen, s.clock))
       case IsCurrent => Move(s, p, Recording)
       case NotDue(_) => Move(s, p, Gone))
    case TryClaim(p, at, declined, writable) =>
      if writable && Seen(s.rows) == s.procs[p].pc.seen then
        Move(s, p, if declined then Recording else Held(at))
          .(rows := Written(s.rows, s.procs[p].version, Running, at), claims := s.claims + [at])
      else Move(s, p, Gone)
    case Begin(p) => Move(s, p, Updating(s.procs[p].pc.at))
    case BeginChild(p) =>
      if InFlight(s.rows, s.procs[p].version, s.clock) then Move(s, p, Updating(s.procs[p].pc.at))
      else Move(s, p, Gone)
    case SpawnFailed(p, when, writable) => WriteIf(s, p, Failed, when, writable)
    case End(p, outcome, installedAfter, when, writable) =>
      WriteIf(s, p, EndPhase(outcome, s.procs[p].version, installedAfter), when, writable)
    case RecordDone(p, when, writable) => WriteIf(s, p, Done, when, writable)
    case Crash(p) => Move(s, p, Gone)
  }

  // ---- What a step changes.

  /** What a step stores in the marker, if it stores anything. */
  function Stored(s: State, step: Step): Option<(Phase, nat)>
    requires Enabled(s, step)
  {
    match step
    case TryClaim(p, at, _, writable) =>
      if writable && Seen(s.rows) == s.procs[p].pc.seen then Some((Running, at)) else None
    case SpawnFailed(_, when, writable) => if writable then Some((Failed, when)) else None
    case End(p, outcome, installedAfter, when, writable) =>
      if !writable then None
      else if EndsWell(outcome, s.procs[p].version, installedAfter) then Some((Done, when)) else Some((Failed, when))
    case RecordDone(_, when, writable) => if writable then Some((Done, when)) else None
    case _ => None
  }

  predicate Owns(step: Step, p: Pid) {
    !step.Tick? && !step.OtherRows? && step.p == p
  }

  /** The marker changes by the four writes only, always as a marker of the writing
      process; claims are what the won claims stored. */
  lemma StepStores(s: State, step: Step)
    requires Enabled(s, step)
    ensures var t := After(s, step);
      match Stored(s, step)
      case Some((phase, at)) =>
        && t.rows == s.rows[MARKER_KEY := Marker(s.procs[step.p].version, phase, at).Format()]
        && t.claims == if step.TryClaim? then s.claims + [at] else s.claims
      case None => t.claims == s.claims && t.rows == if step.OtherRows? then step.rows else s.rows
  {
    if step.End? {
      EndsWellExactly(step.outcome, s.procs[step.p].version, step.installedAfter);
    }
  }

  /** A step moves its own process only, and time moves by ticks only. */
  lemma OthersStay(s: State, step: Step, q: Pid)
    requires Enabled(s, step)
    ensures After(s, step).clock == if step.Tick? then s.clock + step.seconds else s.clock
    ensures !Owns(step, q) ==>
      (q in After(s, step).procs <==> q in s.procs) && (q in s.procs ==> After(s, step).procs[q] == s.procs[q])
    ensures Owns(step, q) && !step.Start? ==>
      q in After(s, step).procs && After(s, step).procs[q].version == s.procs[q].version
  {
  }

  /** Where a step takes its process: on to the claim when the check is due, into the
      attempt when the claim is won and the child finds it in flight, to the record
      when there is nothing to do or the user says no, and else out. */
  lemma StepMoves(s: State, step: Step)
    requires Enabled(s, step) && !step.Tick? && !step.OtherRows? && !step.Start?
    ensures var (was, now) := (s.procs[step.p], After(s, step).procs[step.p].pc);
      match step
      case Read(_, readable) => now == HasSeen(if readable then Seen(s.rows) else None)
      case Check(_, i) =>
        && (now == IsDue(was.pc.seen, s.clock) <==> Wanted(i) && Older(i) && Free(i.marker, i.running, s.clock))
        && (now == Recording <==> Wanted(i) && ReachedBy(i.installed, i.running) && !MarkedDone(i))
        && (now.IsDue? || now == Recording || now == Gone)
        && (now.IsDue? ==> now == IsDue(was.pc.seen, s.clock))
      case TryClaim(_, at, declined, _) =>
        now == if Stored(s, step).None? then Gone else if declined then Recording else Held(at)
      case Begin(_) => now == Updating(was.pc.at)
      case BeginChild(_) => now == if InFlight(s.rows, was.version, s.clock) then Updating(was.pc.at) else Gone
      case _ => now == Gone
  {
    if step.Check? {
      DueExactly(step.inputs, s.clock);
    }
  }

  /** A process between the claim it won and the end of its attempt. */
  predicate Attempting(s: State, p: Pid) {
    At(s, p) && (s.procs[p].pc.Held? || s.procs[p].pc.Updating?)
  }

  /** Every attempt still open began at most ten minutes ago. */
  ghost predicate Timely(s: State) {
    forall p :: Attempting(s, p) ==> s.clock <= s.procs[p].pc.at + RUNNING_STALE
  }

  ghost predicate NoOverlap(s: State) {
    forall p, q :: Attempting(s, p) && Attempting(s, q) ==> p == q
  }

  ghost predicate Spaced(claims: seq<nat>) {
    forall i, j :: 0 <= i < j < |claims| ==> claims[j] > claims[i] + RUNNING_STALE
  }

  /** Any stored rows, no process yet. The clock stays a 64-bit number. */
  predicate Initial(s: State) {
    s.procs == map[] && s.claims == []
  }

  ghost predicate OneVersion(s: State, version: string) {
    forall p :: p in s.procs ==> s.procs[p].version == version
  }

  /** The states a list of steps passes through. */
  ghost predicate IsRun(states: seq<State>, steps: seq<Step>) {
    && |states| == |steps| + 1
    && Initial(states[0])
    && forall i :: 0 <= i < |steps| ==> Enabled(states[i], steps[i]) && states[i + 1] == After(states[i], steps[i])
  }

  ghost predicate ClockFits(states: seq<State>) {
    forall i :: 0 <= i < |states| ==> states[i].clock < U64_LIMIT
  }

  // ---- The invariant.

  function Last(claims: seq<nat>): nat
    requires claims != []
  {
    claims[|claims| - 1]
  }

  function Mine(s: State, version: string): Option<Marker> {
    OfVersion(ParseSeen(Seen(s.rows)), version)
  }

  /** What the stored marker says about the claims so far. */
  ghost predicate MarkerInv(s: State, version: string) {
    match Mine(s, version)
    case None => s.claims == []
    case Some(m) =>
      match m.phase
      case Running => s.claims != [] ==> m.at == Last(s.claims)
      case Failed => (forall p :: !Attempting(s, p)) && forall i :: 0 <= i < |s.claims| ==> s.claims[i] <= m.at
      case Done => true
  }

  ghost predicate ProcessInv(s: State, version: string) {
    forall p :: p in s.procs ==>
      && s.procs[p].version == version
      && (s.procs[p].pc.IsDue? ==>
            && s.procs[p].pc.checked <= s.clock
            && Free(ParseSeen(s.procs[p].pc.seen), version, s.procs[p].pc.checked))
      && (Attempting(s, p) ==> s.claims != [] && s.procs[p].pc.at == Last(s.claims))
  }

  ghost predicate Inv(s: State, version: string) {
    && Spaced(s.claims)
    && (forall i :: 0 <= i < |s.claims| ==> s.claims[i] <= s.clock)
    && MarkerInv(s, version)
    && ProcessInv(s, version)
    && NoOverlap(s)
  }

  /** One process moves on without opening an attempt. */
  lemma MoveKeepsInv(s: State, p: Pid, pc: Pc, version: string)
    requires Inv(s, version) && At(s, p)
    requires pc.IsDue? ==> pc.checked <= s.clock && Free(ParseSeen(pc.seen), version, pc.checked)
    requires pc.Held? || pc.Updating? ==> Attempting(s, p) && pc.at == s.procs[p].pc.at
    ensures Inv(Move(s, p, pc), version)
  {
    var t := Move(s, p, pc);
    assert Mine(t, version) == Mine(s, version);
    assert forall q :: Attempting(t, q) ==> Attempting(s, q) && t.procs[q].pc.at == s.procs[q].pc.at;
  }

  /** A marker that ends something. */
  lemma WriteKeepsInv(s: State, phase: Phase, when: nat, version: string)
    requires IsWord(version) && Inv(s, version) && when < U64_LIMIT && phase != Running
    requires phase == Failed ==>
      (forall p :: !Attempting(s, p)) && forall i :: 0 <= i < |s.claims| ==> s.claims[i] <= when
    ensures Inv(s.(rows := Written(s.rows, version, phase, when)), version)
  {
    var t := s.(rows := Written(s.rows, version, phase, when));
    WrittenIsSeen(s.rows, version, phase, when);
    assert Mine(t, version) == Some(Marker(version, phase, when));
    assert forall q :: Attempting(t, q) <==> Attempting(s, q);
  }

  /** When a claim can win, every attempt ended and every claim is old. */
  lemma FreeMarkerMeansNoAttempt(s: State, checked: nat, version: string)
    requires Inv(s, version) && Timely(s) && checked <= s.clock
    requires Free(ParseSeen(Seen(s.rows)), version, checked)
    ensures forall q :: !Attempting(s, q)
    ensures forall i :: 0 <= i < |s.claims| ==> checked > s.claims[i] + RUNNING_STALE
  {
    forall q ensures !Attempting(s, q) {
      if Attempting(s, q) {
        assert false;
      }
    }
  }

  lemma SpacedMore(claims: seq<nat>, at: nat)
    requires Spaced(claims) && forall i :: 0 <= i < |claims| ==> at > claims[i] + RUNNING_STALE
    ensures Spaced(claims + [at])
  {
  }

  lemma ClaimedProcesses(s: State, t: State, p: Pid, at: nat, version: string)
    requires At(s, p) && ProcessInv(s, version) && (forall q :: !Attempting(s, q))
    requires t.claims == s.claims + [at] && t.clock == s.clock
    requires exists pc: Pc :: (pc == Recording || pc == Held(at)) && t.procs == Move(s, p, pc).procs
    ensures ProcessInv(t, version) && NoOverlap(t)
  {
    assert forall q :: q in t.procs && q != p ==> t.procs[q] == s.procs[q];
    assert forall q :: Attempting(t, q) ==> q == p;
  }

  /** A claim that wins comes after every attempt ended. */
  lemma ClaimStep(s: State, step: Step, version: string)
    requires IsWord(version) && Inv(s, version) && Timely(s) && s.clock < U64_LIMIT
    requires step.TryClaim? && Enabled(s, step)
    ensures Inv(After(s, step), version)
  {
    var p := step.p;
    var t := After(s, step);
    if step.writable && Seen(s.rows) == s.procs[p].pc.seen {
      FreeMarkerMeansNoAttempt(s, s.procs[p].pc.checked, version);
      WrittenIsSeen(s.rows, version, Running, step.at);
      SpacedMore(s.claims, step.at);
      var pc := if step.declined then Recording else Held(step.at);
      assert t.procs == Move(s, p, pc).procs;
      ClaimedProcesses(s, t, p, step.at, version);
      assert Mine(t, version) == Some(Marker(version, Running, step.at));
    } else {
      MoveKeepsInv(s, p, Gone, version);
    }
  }

  /** A write that ends an attempt leaves none open. */
  lemma WriteIfKeepsInv(s: State, p: Pid, phase: Phase, when: nat, writable: bool, version: string)
    requires IsWord(version) && Inv(s, version) && when < U64_LIMIT && phase != Running && At(s, p)
    requires phase == Failed ==> Attempting(s, p) && s.procs[p].pc.at <= when
    ensures Inv(WriteIf(s, p, phase, when, writable), version)
  {
    var moved := Move(s, p, Gone);
    MoveKeepsInv(s, p, Gone, version);
    if writable {
      if phase == Failed {
        LastIsLargest(s.claims);
        assert forall q :: Attempting(moved, q) ==> q != p && Attempting(s, q);
      }
      WriteKeepsInv(moved, phase, when, version);
    }
  }

  lemma LastIsLargest(claims: seq<nat>)
    requires Spaced(claims) && claims != []
    ensures forall i :: 0 <= i < |claims| ==> claims[i] <= Last(claims)
  {
  }

  lemma EndStep(s: State, step: Step, version: string)
    requires IsWord(version) && Inv(s, version) && s.clock < U64_LIMIT
    requires (step.SpawnFailed? || step.End? || step.RecordDone?) && Enabled(s, step)
    ensures Inv(After(s, step), version)
  {
    var phase := if step.SpawnFailed? then Failed else if step.RecordDone? then Done
                 else EndPhase(step.outcome, version, step.installedAfter);
    WriteIfKeepsInv(s, step.p, phase, step.when, step.writable, version);
  }

  lemma QuietStep(s: State, step: Step, version: string)
    requires Inv(s, version) && Enabled(s, step)
    requires step.Start? ==> step.version == version
    requires !step.TryClaim? && !step.SpawnFailed? && !step.End? && !step.RecordDone?
    ensures Inv(After(s, step), version)
  {
    if step.Tick? || step.OtherRows? || step.Start? {
      var t := After(s, step);
      assert Mine(t, version) == Mine(s, version);
      assert forall q :: Attempting(t, q) <==> Attempting(s, q);
    } else {
      if step.Check? {
        DueExactly(step.inputs, s.clock);
      }
      var p := step.p;
      MoveKeepsInv(s, p, After(s, step).procs[p].pc, version);
    }
  }

  lemma StepKeepsInv(s: State, step: Step, version: string)
    requires IsWord(version) && Inv(s, version) && Timely(s) && s.clock < U64_LIMIT && Enabled(s, step)
    requires OneVersion(After(s, step), version)
    ensures Inv(After(s, step), version)
  {
    if step.TryClaim? {
      ClaimStep(s, step, version);
    } else if step.SpawnFailed? || step.End? || step.RecordDone? {
      EndStep(s, step, version);
    } else {
      assert step.Start? ==> step.p in After(s, step).procs;
      QuietStep(s, step, version);
    }
  }

  lemma {:induction false} RunKeepsInv(states: seq<State>, steps: seq<Step>, version: string, n: nat)
    requires IsWord(version) && IsRun(states, steps) && ClockFits(states) && n < |states|
    requires forall i :: 0 <= i < |states| ==> Timely(states[i]) && OneVersion(states[i], version)
    ensures Inv(states[n], version)
  {
    if n > 0 {
      RunKeepsInv(states, steps, version, n - 1);
      StepKeepsInv(states[n - 1], steps[n - 1], version);
    }
  }

  /** The lease theorem. Processes of one version, in any order, with any
      installed versions and outcomes, store failures, spawn failures and
      crashes: as long as no attempt stays open for more than ten minutes, no
      two attempts are ever open together, and the recorded times of any two
      won claims are more than ten minutes apart. */
  lemma AttemptsNeverOverlap(states: seq<State>, steps: seq<Step>, version: string)
    requires IsWord(version) && IsRun(states, steps) && ClockFits(states)
    requires forall i :: 0 <= i < |states| ==> Timely(states[i]) && OneVersion(states[i], version)
    ensures forall i :: 0 <= i < |states| ==> NoOverlap(states[i]) && Spaced(states[i].claims)
  {
    forall i | 0 <= i < |states| ensures NoOverlap(states[i]) && Spaced(states[i].claims) {
      RunKeepsInv(states, steps, version, i);
    }
  }

  // ---- One version is what the theorem needs.

  /** Every check sees this plugin version installed. */
  ghost predicate ChecksSee(steps: seq<Step>, installed: string) {
    forall i :: 0 <= i < |steps| && steps[i].Check? ==> steps[i].inputs.installed == Some(installed)
  }

  ghost predicate Among(s: State, versions: set<string>) {
    forall p :: p in s.procs ==> s.procs[p].version in versions
  }

  /** A timely run by binaries of these versions, over one installed plugin. */
  ghost predicate TimelyRun(states: seq<State>, steps: seq<Step>, versions: set<string>, installed: string) {
    && IsRun(states, steps) && ClockFits(states) && ChecksSee(steps, installed)
    && forall i :: 0 <= i < |states| ==> Timely(states[i]) && Among(states[i], versions)
  }

  /** Some timely run has two attempts open together. */
  ghost predicate CanOverlap(versions: set<string>, installed: string) {
    exists states, steps, i {:trigger TimelyRun(states, steps, versions, installed), states[i]} ::
      TimelyRun(states, steps, versions, installed) && 0 <= i < |states| && !NoOverlap(states[i])
  }

  // A plugin that no binary finds older.

  ghost predicate NoneDue(s: State) {
    forall p :: p in s.procs ==> !s.procs[p].pc.IsDue? && !Attempting(s, p)
  }

  lemma NoneDueMoves(s: State, t: State, p: Pid, pc: Pc)
    requires NoneDue(s) && At(s, p) && t.procs == Move(s, p, pc).procs
    requires !pc.IsDue? && !pc.Held? && !pc.Updating?
    ensures NoneDue(t)
  {
  }

  lemma CheckIsCurrent(s: State, step: Step, versions: set<string>, installed: string)
    requires Among(s, versions) && Enabled(s, step) && step.Check? && step.inputs.installed == Some(installed)
    requires forall version :: version in versions ==> Versions.Compare(installed, version) != Less
    ensures !DueFrom(step.inputs, s.clock).Run?
  {
    DueExactly(step.inputs, s.clock);
    assert s.procs[step.p].version in versions;
  }

  lemma NoAttemptStep(s: State, step: Step)
    requires NoneDue(s) && Enabled(s, step)
    ensures !step.TryClaim? && !step.Begin? && !step.BeginChild? && !step.SpawnFailed? && !step.End?
  {
  }

  lemma ReadMoves(s: State, p: Pid, readable: bool)
    requires Enabled(s, Read(p, readable))
    ensures After(s, Read(p, readable)).procs == Move(s, p, HasSeen(if readable then Seen(s.rows) else None)).procs
  {
  }

  lemma CheckMoves(s: State, p: Pid, inputs: DueInputs) returns (pc: Pc)
    requires Enabled(s, Check(p, inputs)) && !DueFrom(inputs, s.clock).Run?
    ensures After(s, Check(p, inputs)).procs == Move(s, p, pc).procs && (pc == Recording || pc == Gone)
  {
    pc := if DueFrom(inputs, s.clock).IsCurrent? then Recording else Gone;
  }

  lemma RecordMoves(s: State, p: Pid, when: nat, writable: bool)
    requires Enabled(s, RecordDone(p, when, writable))
    ensures After(s, RecordDone(p, when, writable)).procs == Move(s, p, Gone).procs
  {
  }

  lemma NoneDueStays(s: State, step: Step, versions: set<string>, installed: string)
    requires NoneDue(s) && Among(s, versions) && Enabled(s, step)
    requires forall version :: version in versions ==> Versions.Compare(installed, version) != Less
    requires step.Check? ==> step.inputs.installed == Some(installed)
    ensures NoneDue(After(s, step))
  {
    NoAttemptStep(s, step);
    if step.Read? {
      ReadMoves(s, step.p, step.readable);
      NoneDueMoves(s, After(s, step), step.p, HasSeen(if step.readable then Seen(s.rows) else None));
    } else if step.Check? {
      CheckIsCurrent(s, step, versions, installed);
      var pc := CheckMoves(s, step.p, step.inputs);
      NoneDueMoves(s, After(s, step), step.p, pc);
    } else if step.RecordDone? {
      RecordMoves(s, step.p, step.when, step.writable);
      NoneDueMoves(s, After(s, step), step.p, Gone);
    } else if step.Crash? {
      NoneDueMoves(s, After(s, step), step.p, Gone);
    }
  }

  lemma {:induction false} NoneEverDue(states: seq<State>, steps: seq<Step>, versions: set<string>, installed: string,
                                       n: nat)
    requires IsRun(states, steps) && ChecksSee(steps, installed) && n < |states|
    requires forall i :: 0 <= i < |states| ==> Among(states[i], versions)
    requires forall version :: version in versions ==> Versions.Compare(installed, version) != Less
    ensures NoneDue(states[n])
  {
    if n > 0 {
      var (s, step) := (states[n - 1], steps[n - 1]);
      NoneEverDue(states, steps, versions, installed, n - 1);
      NoneDueStays(s, step, versions, installed);
      assert states[n - 1 + 1] == After(s, step);
    }
  }

  // Runs at time zero.

  ghost predicate ZeroRun(states: seq<State>, steps: seq<Step>, versions: set<string>, installed: string) {
    && IsRun(states, steps) && ChecksSee(steps, installed)
    && forall i :: 0 <= i < |states| ==> states[i].clock == 0 && Among(states[i], versions)
  }

  lemma ZeroRunIsTimely(states: seq<State>, steps: seq<Step>, versions: set<string>, installed: string)
    requires ZeroRun(states, steps, versions, installed)
    ensures TimelyRun(states, steps, versions, installed)
  {
  }

  /** The step leads from the one state to the other. */
  ghost predicate Leads(s: State, step: Step, t: State) {
    Enabled(s, step) && t == After(s, step)
  }

  /** A stretch of steps from the state `s`. */
  ghost predicate Stretch(s: State, next: seq<State>, more: seq<Step>, versions: set<string>, installed: string) {
    && |next| == |more| + 1 && next[0] == s && ChecksSee(more, installed)
    && (forall i :: 0 <= i < |next| ==> next[i].clock == 0 && Among(next[i], versions))
    && forall i :: 0 <= i < |more| ==> Leads(next[i], more[i], next[i + 1])
  }

  /** A run goes on with a stretch of steps. */
  lemma Extends(states: seq<State>, steps: seq<Step>, next: seq<State>, more: seq<Step>, versions: set<string>,
                installed: string)
    requires ZeroRun(states, steps, versions, installed)
    requires Stretch(states[|steps|], next, more, versions, installed)
    ensures ZeroRun(states + next[1..], steps + more, versions, installed)
    ensures (states + next[1..])[|steps + more|] == next[|more|]
  {
    var (allStates, allSteps) := (states + next[1..], steps + more);
    forall i | 0 <= i < |next| ensures allStates[|steps| + i] == next[i] {
    }
    forall i | 0 <= i < |allSteps|
      ensures Enabled(allStates[i], allSteps[i]) && allStates[i + 1] == After(allStates[i], allSteps[i])
    {
      if i >= |steps| {
        var k := i - |steps|;
        assert allStates[|steps| + k] == next[k] && allStates[|steps| + (k + 1)] == next[k + 1];
        assert allSteps[i] == more[k];
        assert Leads(next[k], more[k], next[k + 1]);
      }
    }
    forall i | 0 <= i < |allStates| ensures allStates[i].clock == 0 && Among(allStates[i], versions) {
      if i >= |steps| {
        assert allStates[|steps| + (i - |steps|)] == next[i - |steps|];
      }
    }
  }

  function DueIn(marker: Option<Marker>, version: string, installed: string): DueInputs {
    DueInputs(marker, version, Some(installed), Auto, None, false, false, false, Some("playbook"))
  }

  /** The first three steps of a process: it starts, reads and checks. */
  function Checking(s: State, p: Pid, version: string, pc: Pc): (r: (State, State, State))
    requires p !in s.procs
  {
    var started := s.(procs := s.procs[p := Process(version, Idle)]);
    var read := Move(started, p, HasSeen(Seen(s.rows)));
    (started, read, Move(read, p, pc))
  }

  function CheckOf(s: State, p: Pid, version: string, installed: string): Step {
    Check(p, DueIn(ParseSeen(Seen(s.rows)), version, installed))
  }

  /** Where a check leads, when the marker is of another version. */
  function CheckedPc(s: State, version: string, installed: string): Pc {
    if Versions.Compare(installed, version) == Less then IsDue(Seen(s.rows), s.clock) else Recording
  }

  lemma CheckingRuns(s: State, p: Pid, version: string, installed: string)
    requires p !in s.procs && OfVersion(ParseSeen(Seen(s.rows)), version).None?
    ensures var r := Checking(s, p, version, CheckedPc(s, version, installed));
      && Leads(s, Start(p, version), r.0)
      && Leads(r.0, Read(p, true), r.1)
      && Leads(r.1, CheckOf(s, p, version, installed), r.2)
  {
    var due := DueFrom(DueIn(ParseSeen(Seen(s.rows)), version, installed), s.clock);
    assert due == if Versions.Compare(installed, version) == Less then Run(Auto) else IsCurrent;
  }

  /** What the last step of the stretch is: a claim, or a record of a plugin that
      is current. */
  function LastOf(s: State, p: Pid, version: string, installed: string): Step {
    if Versions.Compare(installed, version) == Less then TryClaim(p, s.clock, false, true)
    else RecordDone(p, s.clock, true)
  }

  /** The state after it. */
  function Ended(s: State, p: Pid, version: string, installed: string): State {
    if Versions.Compare(installed, version) == Less then
      State(Written(s.rows, version, Running, s.clock), s.clock, s.procs[p := Process(version, Held(s.clock))],
        s.claims + [s.clock])
    else State(Written(s.rows, version, Done, s.clock), s.clock, s.procs[p := Process(version, Gone)], s.claims)
  }

  lemma ClaimRuns(t: State, p: Pid, version: string)
    requires At(t, p) && t.procs[p] == Process(version, IsDue(Seen(t.rows), t.clock))
    ensures Leads(t, TryClaim(p, t.clock, false, true),
      State(Written(t.rows, version, Running, t.clock), t.clock, t.procs[p := Process(version, Held(t.clock))],
        t.claims + [t.clock]))
  {
  }

  lemma RecordRuns(t: State, p: Pid, version: string)
    requires At(t, p) && t.procs[p] == Process(version, Recording)
    ensures Leads(t, RecordDone(p, t.clock, true),
      State(Written(t.rows, version, Done, t.clock), t.clock, t.procs[p := Process(version, Gone)], t.claims))
  {
  }

  lemma LastRuns(s: State, p: Pid, version: string, installed: string)
    requires p !in s.procs
    ensures var t := Checking(s, p, version, CheckedPc(s, version, installed)).2;
      Leads(t, LastOf(s, p, version, installed), Ended(s, p, version, installed))
  {
    var t := Checking(s, p, version, CheckedPc(s, version, installed)).2;
    if Versions.Compare(installed, version) == Less {
      ClaimRuns(t, p, version);
      assert t.procs[p := Process(version, Held(s.clock))] == s.procs[p := Process(version, Held(s.clock))];
    } else {
      RecordRuns(t, p, version);
      assert t.procs[p := Process(version, Gone)] == s.procs[p := Process(version, Gone)];
    }
  }

  function EpisodeStates(s: State, p: Pid, version: string, installed: string): seq<State>
    requires p !in s.procs
  {
    var r := Checking(s, p, version, CheckedPc(s, version, installed));
    [s, r.0, r.1, r.2, Ended(s, p, version, installed)]
  }

  function EpisodeSteps(s: State, p: Pid, version: string, installed: string): seq<Step> {
    [Start(p, version), Read(p, true), CheckOf(s, p, version, installed), LastOf(s, p, version, installed)]
  }

  lemma FourSteps(s: State, a: State, b: State, c: State, d: State, s0: Step, s1: Step, s2: Step, s3: Step,
                  versions: set<string>, installed: string)
    requires Leads(s, s0, a) && Leads(a, s1, b) && Leads(b, s2, c) && Leads(c, s3, d)
    requires ChecksSee([s0, s1, s2, s3], installed)
    requires s.clock == a.clock == b.clock == c.clock == d.clock == 0
    requires Among(s, versions) && Among(a, versions) && Among(b, versions) && Among(c, versions) && Among(d, versions)
    ensures Stretch(s, [s, a, b, c, d], [s0, s1, s2, s3], versions, installed)
  {
    var (next, more) := ([s, a, b, c, d], [s0, s1, s2, s3]);
    forall i | 0 <= i < |more| ensures Leads(next[i], more[i], next[i + 1]) {
    }
    forall i | 0 <= i < |next| ensures next[i].clock == 0 && Among(next[i], versions) {
    }
  }

  lemma EpisodeAmong(s: State, p: Pid, versions: set<string>, version: string, installed: string)
    requires p !in s.procs && Among(s, versions) && version in versions
    ensures var r := Checking(s, p, version, CheckedPc(s, version, installed));
      Among(r.0, versions) && Among(r.1, versions) && Among(r.2, versions)
        && Among(Ended(s, p, version, installed), versions)
  {
  }

  lemma EpisodeIsStretch(s: State, p: Pid, versions: set<string>, version: string, installed: string)
    requires p !in s.procs && s.clock == 0 && Among(s, versions) && version in versions
    requires OfVersion(ParseSeen(Seen(s.rows)), version).None?
    ensures Stretch(
      s, EpisodeStates(s, p, version, installed), EpisodeSteps(s, p, version, installed), versions, installed)
  {
    var r := Checking(s, p, version, CheckedPc(s, version, installed));
    CheckingRuns(s, p, version, installed);
    LastRuns(s, p, version, installed);
    EpisodeAmong(s, p, versions, version, installed);
    FourSteps(s, r.0, r.1, r.2, Ended(s, p, version, installed),
              Start(p, version), Read(p, true), CheckOf(s, p, version, installed), LastOf(s, p, version, installed),
              versions, installed);
  }

  /** A process of a version that did not write the marker claims it at once when
      it finds the plugin older, and else writes its own `done` over it. */
  lemma Episode(states: seq<State>, steps: seq<Step>, p: Pid, versions: set<string>, version: string, installed: string)
    returns (all: seq<State>, allSteps: seq<Step>)
    requires ZeroRun(states, steps, versions, installed) && version in versions && IsWord(version)
    requires var s := states[|steps|]; p !in s.procs && OfVersion(ParseSeen(Seen(s.rows)), version).None?
    ensures ZeroRun(all, allSteps, versions, installed)
    ensures var (s, t) := (states[|steps|], all[|allSteps|]);
      var claims := Versions.Compare(installed, version) == Less;
      && t.procs == s.procs[p := Process(version, if claims then Held(0) else Gone)]
      && ParseSeen(Seen(t.rows)) == Some(Marker(version, if claims then Running else Done, 0))
  {
    var s := states[|steps|];
    var (next, more) := (EpisodeStates(s, p, version, installed), EpisodeSteps(s, p, version, installed));
    EpisodeIsStretch(s, p, versions, version, installed);
    Extends(states, steps, next, more, versions, installed);
    WrittenIsSeen(s.rows, version, if Versions.Compare(installed, version) == Less then Running else Done, 0);
    all, allSteps := states + next[1..], steps + more;
  }

  lemma EmptyRun(s: State, versions: set<string>, installed: string)
    requires s == State(map[], 0, map[], [])
    ensures ZeroRun([s], [], versions, installed)
  {
  }

  lemma TwoAttempts(states: seq<State>, steps: seq<Step>, versions: set<string>, installed: string, p: Pid, q: Pid)
    requires ZeroRun(states, steps, versions, installed) && p != q
    requires Attempting(states[|steps|], p) && Attempting(states[|steps|], q)
    ensures CanOverlap(versions, installed)
  {
    ZeroRunIsTimely(states, steps, versions, installed);
    assert !NoOverlap(states[|steps|]);
  }

  lemma OneClaimHeld(a: string, versions: set<string>, installed: string) returns (states: seq<State>, steps: seq<Step>)
    requires IsWord(a) && a in versions && Versions.Compare(installed, a) == Less
    ensures ZeroRun(states, steps, versions, installed)
    ensures states[|steps|].procs == map[0 := Process(a, Held(0))]
    ensures ParseSeen(Seen(states[|steps|].rows)) == Some(Marker(a, Running, 0))
  {
    var start := State(map[], 0, map[], []);
    EmptyRun(start, versions, installed);
    states, steps := Episode([start], [], 0, versions, a, installed);
  }

  /** A process of version `a` holds a claim. A process of `b` writes its marker
      over it: by a claim of its own when it finds the plugin older, or else as
      `done`, after which another process of `a` claims. */
  lemma TwoVersionsCanOverlap(a: string, b: string, installed: string)
    requires IsWord(a) && IsWord(b) && a != b && Versions.Compare(installed, a) == Less
    ensures CanOverlap({a, b}, installed)
  {
    var versions := {a, b};
    var one, oneSteps := OneClaimHeld(a, versions, installed);
    var two, twoSteps := Episode(one, oneSteps, 1, versions, b, installed);
    if Versions.Compare(installed, b) == Less {
      TwoAttempts(two, twoSteps, versions, installed, 0, 1);
    } else {
      var three, threeSteps := Episode(two, twoSteps, 2, versions, a, installed);
      TwoAttempts(three, threeSteps, versions, installed, 0, 2);
    }
  }

  lemma OneVersionNeverOverlaps(version: string, installed: string)
    requires IsWord(version)
    ensures !CanOverlap({version}, installed)
  {
    forall states, steps, i | TimelyRun(states, steps, {version}, installed) && 0 <= i < |states|
      ensures NoOverlap(states[i])
    {
      forall k | 0 <= k < |states| ensures OneVersion(states[k], version) {
        assert Among(states[k], {version});
      }
      AttemptsNeverOverlap(states, steps, version);
    }
  }

  /** Two attempts can be open together exactly when the binaries are of two
      versions and one of them finds the plugin older. */
  lemma OverlapExactly(a: string, b: string, installed: string)
    requires IsWord(a) && IsWord(b)
    ensures CanOverlap({a, b}, installed) <==>
      a != b && (Versions.Compare(installed, a) == Less || Versions.Compare(installed, b) == Less)
  {
    if a == b {
      assert {a, b} == {a};
      OneVersionNeverOverlaps(a, installed);
    } else if Versions.Compare(installed, a) == Less {
      TwoVersionsCanOverlap(a, b, installed);
    } else if Versions.Compare(installed, b) == Less {
      assert {a, b} == {b, a};
      TwoVersionsCanOverlap(b, a, installed);
    } else {
      forall states, steps, i | TimelyRun(states, steps, {a, b}, installed) && 0 <= i < |states|
        ensures NoOverlap(states[i])
      {
        NoneEverDue(states, steps, {a, b}, installed, i);
      }
    }
  }
}
