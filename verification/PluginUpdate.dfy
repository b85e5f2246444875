/** The plugin update marker and its rules (crates/cli/src/plugin_update.rs).
    The installed version, the outcome of `claude plugin update` and whether the
    store can be written are inputs. */
module PluginUpdate {
  import opened Base
  import opened Text
  import opened Store
  import Versions

  const MARKER_KEY := "versions/plugin-update"
  const FAILED_RETRY: nat := 24 * 60 * 60
  const RUNNING_STALE: nat := 10 * 60
  const SKIP_VALUE := "1"

  datatype Phase = Running | Done | Failed {
    function Word(): (w: string)
      ensures IsWord(w)
    {
      match this
      case Running => "running"
      case Done => "done"
      case Failed => "failed"
    }
  }

  function ParsePhase(word: string): Option<Phase> {
    if word == "running" then Some(Running)
    else if word == "done" then Some(Done)
    else if word == "failed" then Some(Failed)
    else None
  }

  /** How far the last attempt got. */
  datatype Marker = Marker(version: string, phase: Phase, at: nat) {
    function Format(): string {
      version + " " + phase.Word() + " " + Digits(at)
    }
  }

  function Parse(text: string): Option<Marker> {
    var words := Words(text);
    if |words| != 3 then None
    else
      match (ParsePhase(words[1]), ParseUnsigned(words[2], U64_LIMIT))
      case (Some(phase), Some(at)) => Some(Marker(words[0], phase, at))
      case _ => None
  }

  lemma TwoWords(a: string, b: string)
    requires IsWord(a) && IsWord(b)
    ensures Words(a + " " + b) == [a, b]
  {
    WordsFirst(a, b);
    WordsFirst(b, "");
  }

  lemma Regrouped(a: string, blank: string, b: string, c: string)
    ensures a + blank + b + blank + c == a + blank + (b + blank + c)
  {
  }

  lemma ThreeWords(a: string, b: string, c: string)
    requires IsWord(a) && IsWord(b) && IsWord(c)
    ensures Words(a + " " + b + " " + c) == [a, b, c]
  {
    TwoWords(b, c);
    WordsFirst(a, b + " " + c);
    Regrouped(a, " ", b, c);
  }

  lemma PhaseReadsBack(phase: Phase)
    ensures ParsePhase(phase.Word()) == Some(phase)
  {}

  /** Stored text reads back exactly when the version is one word. */
  lemma FormatReadsBack(m: Marker)
    requires m.at < U64_LIMIT
    ensures Parse(m.Format()) == Some(m) <==> IsWord(m.version)
  {
    var (word, time) := (m.phase.Word(), Digits(m.at));
    PhaseReadsBack(m.phase);
    DigitsReadBack(m.at, U64_LIMIT);
    if IsWord(m.version) {
      ThreeWords(m.version, word, time);
    }
  }

  /** A text is a marker exactly when it is three words: any version, one of the
      three phases, and a number. */
  lemma ParseExactly(text: string, m: Marker)
    ensures Parse(text) == Some(m) <==>
      && |Words(text)| == 3 && Words(text)[0] == m.version && Words(text)[1] == m.phase.Word()
      && ParseUnsigned(Words(text)[2], U64_LIMIT) == Some(m.at)
  {
    if |Words(text)| == 3 {
      PhasesAreWords(Words(text)[1], m.phase);
    }
  }

  lemma PhasesAreWords(word: string, phase: Phase)
    ensures ParsePhase(word) == Some(phase) <==> word == phase.Word()
  {
    var (running, done, failed) := ("running", "done", "failed");
    assert running[0] != done[0] && running[0] != failed[0] && done[0] != failed[0];
  }

  datatype Mode = Auto | Ask | Off

  /** What the due check reads. */
  datatype DueInputs = DueInputs(
    marker: Option<Marker>,
    running: string,
    installed: Option<string>,
    mode: Mode,
    skipEnv: Option<string>,
    headless: bool,
    ciVendor: bool,
    disabledInClaude: bool,
    pluginId: Option<string>)

  datatype Reason =
    | UpdateIsOff | SkipIsSet | HeadlessRun | CiRun | NotInstalledHere | TurnedOff | VersionUnknown
    | AlreadyCurrent | AlreadyDone | FailedRecently | AnotherRuns

  datatype Due = Run(mode: Mode) | IsCurrent | NotDue(reason: Reason)

  /** The marker, when it was written by this version. */
  function OfVersion(marker: Option<Marker>, running: string): Option<Marker> {
    if marker.Some? && marker.value.version == running then marker else None
  }

  function DueFrom(i: DueInputs, now: nat): Due {
    if i.mode == Off then NotDue(UpdateIsOff)
    else if i.skipEnv == Some(SKIP_VALUE) then NotDue(SkipIsSet)
    else if i.headless then NotDue(HeadlessRun)
    else if i.ciVendor then NotDue(CiRun)
    else if i.pluginId.None? then NotDue(NotInstalledHere)
    else if i.disabledInClaude then NotDue(TurnedOff)
    else if i.installed.None? then NotDue(VersionUnknown)
    else
      var mine := OfVersion(i.marker, i.running);
      if Versions.Compare(i.installed.value, i.running) != Less then
        if mine.Some? && mine.value.phase == Done then NotDue(AlreadyCurrent) else IsCurrent
      else
        match mine
        case None => Run(i.mode)
        case Some(m) =>
          var age := SatSub(now, m.at);
          match m.phase
          case Done => NotDue(AlreadyDone)
          case Failed => if age > FAILED_RETRY then Run(i.mode) else NotDue(FailedRecently)
          case Running => if age > RUNNING_STALE then Run(i.mode) else NotDue(AnotherRuns)
  }

  /** Whether a marker leaves room for a new attempt of `running` at `now`. */
  predicate Free(marker: Option<Marker>, running: string, now: nat) {
    match OfVersion(marker, running)
    case None => true
    case Some(m) =>
      match m.phase
      case Done => false
      case Failed => now > m.at + FAILED_RETRY
      case Running => now > m.at + RUNNING_STALE
  }

  function Seen(rows: Rows): Option<string> {
    Filled(rows, MARKER_KEY)
  }

  function ParseSeen(seen: Option<string>): Option<Marker> {
    if seen.None? then None else Parse(seen.value)
  }

  /** The rows after a write of the marker. */
  function Written(rows: Rows, running: string, phase: Phase, at: nat): Rows {
    rows[MARKER_KEY := Marker(running, phase, at).Format()]
  }

  /** Takes the lease: wins exactly while the marker is what the due check saw. */
  method Claim(state: State, seen: Option<string>, running: string, now: nat, writable: bool)
    returns (won: bool)
    modifies state
    ensures won <==> writable && Seen(old(state.rows)) == seen
    ensures state.rows == if won then Written(old(state.rows), running, Running, now) else old(state.rows)
  {
    won := false;
    if writable {
      var current := Get(state.rows, MARKER_KEY);
      if (if current == Some("") then None else current) == seen {
        state.rows := state.rows[MARKER_KEY := Marker(running, Running, now).Format()];
        won := true;
      }
    }
  }

  datatype Outcome =
    | Updated(id: string, from: Option<string>, to: Option<string>)
    | Current(id: string, version: Option<string>)
    | Skipped(why: string)
    | NotInstalled
    | NoCli(id: string)
    | UpdateFailed(id: string, why: string)

  function EndPhase(outcome: Outcome, running: string, installedAfter: Option<string>): Phase {
    var stillOlder := installedAfter.None? || Versions.Compare(installedAfter.value, running) == Less;
    match outcome
    case UpdateFailed(_, _) => Failed
    case NoCli(_) => Failed
    case Current(_, _) => if stillOlder then Failed else Done
    case Updated(_, _, _) => if stillOlder then Failed else Done
    case _ => Done
  }

  /** The attempt needs no other one: nothing went wrong, and after an update the
      plugin is known to have reached this binary. */
  predicate EndsWell(outcome: Outcome, running: string, installedAfter: Option<string>) {
    && !outcome.UpdateFailed? && !outcome.NoCli?
    && (outcome.Updated? || outcome.Current? ==> ReachedBy(installedAfter, running))
  }

  /** The plugin is known and not older than this binary. */
  predicate ReachedBy(installed: Option<string>, running: string) {
    installed.Some? && Versions.AtMost(running, installed.value)
  }

  lemma EndsWellExactly(outcome: Outcome, running: string, installedAfter: Option<string>)
    ensures EndPhase(outcome, running, installedAfter)
      == if EndsWell(outcome, running, installedAfter) then Done else Failed
  {
    if installedAfter.Some? {
      Versions.CompareFlip(installedAfter.value, running);
    }
  }

  method Write(state: State, running: string, phase: Phase, now: nat, writable: bool)
    modifies state
    ensures state.rows == if writable then Written(old(state.rows), running, phase, now) else old(state.rows)
  {
    if writable {
      state.rows := state.rows[MARKER_KEY := Marker(running, phase, now).Format()];
    }
  }

  /** Records how an attempt ended. */
  method Finish(state: State, outcome: Outcome, running: string, installedAfter: Option<string>,
                now: nat, writable: bool)
    returns (phase: Phase)
    modifies state
    ensures phase == Done || phase == Failed
    ensures phase == Done <==> EndsWell(outcome, running, installedAfter)
    ensures state.rows == if writable then Written(old(state.rows), running, phase, now) else old(state.rows)
  {
    phase := EndPhase(outcome, running, installedAfter);
    EndsWellExactly(outcome, running, installedAfter);
    Write(state, running, phase, now, writable);
  }

  /** A child that never started leaves the claim failed. */
  method SettleSpawn(state: State, running: string, spawned: bool, now: nat, writable: bool)
    returns (started: bool)
    modifies state
    ensures started == spawned
    ensures state.rows ==
      if spawned || !writable then old(state.rows) else Written(old(state.rows), running, Failed, now)
  {
    if !spawned {
      Write(state, running, Failed, now, writable);
    }
    started := spawned;
  }

  function InFlight(rows: Rows, running: string, now: nat): bool {
    var m := ParseSeen(Seen(rows));
    && m.Some? && m.value.version == running && m.value.phase == Running
    && SatSub(now, m.value.at) <= RUNNING_STALE
  }

  lemma WrittenIsSeen(rows: Rows, running: string, phase: Phase, at: nat)
    requires IsWord(running) && at < U64_LIMIT
    ensures Seen(Written(rows, running, phase, at)).Some?
    ensures ParseSeen(Seen(Written(rows, running, phase, at))) == Some(Marker(running, phase, at))
  {
    var m := Marker(running, phase, at);
    FormatReadsBack(m);
    assert m.Format()[0] == running[0];
  }

  /** Nothing turns automatic updates off in this process. */
  predicate Wanted(i: DueInputs) {
    && i.mode in {Auto, Ask} && i.skipEnv != Some("1") && !i.headless && !i.ciVendor
    && i.pluginId.Some? && !i.disabledInClaude
  }

  predicate Older(i: DueInputs) {
    i.installed.Some? && Versions.Compare(i.running, i.installed.value) == Greater
  }

  predicate MarkedDone(i: DueInputs) {
    i.marker.Some? && i.marker.value.version == i.running && i.marker.value.phase == Done
  }

  /** A check is due exactly when updates are wanted, the installed version is
      older and the marker is free; it has nothing left to do but the record
      exactly when they are wanted and the plugin is known to have reached this
      binary, which no marker says yet. */
  lemma DueExactly(i: DueInputs, now: nat)
    ensures DueFrom(i, now) == Run(i.mode) <==> Wanted(i) && Older(i) && Free(i.marker, i.running, now)
    ensures DueFrom(i, now).Run? ==> DueFrom(i, now).mode == i.mode
    ensures DueFrom(i, now) == IsCurrent <==> Wanted(i) && ReachedBy(i.installed, i.running) && !MarkedDone(i)
  {
    if i.installed.Some? {
      Versions.CompareFlip(i.installed.value, i.running);
    }
  }

  /** The condition of each reason, whatever the others say. */
  predicate Applies(reason: Reason, i: DueInputs, now: nat) {
    var taken := !Free(i.marker, i.running, now);
    match reason
    case UpdateIsOff => i.mode == Off
    case SkipIsSet => i.skipEnv == Some("1")
    case HeadlessRun => i.headless
    case CiRun => i.ciVendor
    case NotInstalledHere => i.pluginId.None?
    case TurnedOff => i.disabledInClaude
    case VersionUnknown => i.installed.None?
    case AlreadyCurrent => ReachedBy(i.installed, i.running) && MarkedDone(i)
    case AlreadyDone => Older(i) && taken && i.marker.value.phase == Done
    case FailedRecently => Older(i) && taken && i.marker.value.phase == Failed
    case AnotherRuns => Older(i) && taken && i.marker.value.phase == Running
  }

  /** The place of a reason in the order they are asked. */
  function Rank(reason: Reason): nat {
    match reason
    case UpdateIsOff => 0
    case SkipIsSet => 1
    case HeadlessRun => 2
    case CiRun => 3
    case NotInstalledHere => 4
    case TurnedOff => 5
    case VersionUnknown => 6
    case _ => 7
  }

  /** A check that is not due names the first reason that applies. */
  lemma ReasonIsTheFirst(i: DueInputs, now: nat, reason: Reason)
    ensures DueFrom(i, now) == NotDue(reason) <==>
      Applies(reason, i, now) && forall other: Reason :: Applies(other, i, now) ==> Rank(reason) <= Rank(other)
  {
    if i.installed.Some? {
      Versions.CompareFlip(i.installed.value, i.running);
    }
    if DueFrom(i, now).NotDue? {
      var named := DueFrom(i, now).reason;
      assert Applies(named, i, now);
    }
  }

  /** What each write means for the next due check of this version, read back
      through the store: a claim holds for ten minutes, a failure waits a day,
      and a finished update is never due again. */
  lemma WriteSettlesTheNextCheck(rows: Rows, running: string, phase: Phase, at: nat, i: DueInputs, now: nat)
    requires IsWord(running) && at < U64_LIMIT
    requires i.running == running && i.marker == ParseSeen(Seen(Written(rows, running, phase, at)))
    ensures DueFrom(i, now) == Run(i.mode) <==>
      && Wanted(i) && Older(i)
      && ((phase == Failed && now > at + FAILED_RETRY) || (phase == Running && now > at + RUNNING_STALE))
    ensures phase == Running ==>
      (InFlight(Written(rows, running, phase, at), running, now) <==> now <= at + RUNNING_STALE)
    ensures phase != Running ==> !InFlight(Written(rows, running, phase, at), running, now)
  {
    WrittenIsSeen(rows, running, phase, at);
    DueExactly(i, now);
  }

  /** After an attempt that ended well no check of this version is due again;
      after any other one the next is due exactly when a day has passed. */
  lemma EndSettlesTheNextCheck(
    rows: Rows, running: string, outcome: Outcome, installedAfter: Option<string>, at: nat, i: DueInputs, now: nat)
    requires IsWord(running) && at < U64_LIMIT && i.running == running && Wanted(i) && Older(i)
    requires i.marker == ParseSeen(Seen(Written(rows, running, EndPhase(outcome, running, installedAfter), at)))
    ensures DueFrom(i, now) == Run(i.mode) <==>
      !EndsWell(outcome, running, installedAfter) && now > at + 24 * 60 * 60
  {
    EndsWellExactly(outcome, running, installedAfter);
    WriteSettlesTheNextCheck(rows, running, EndPhase(outcome, running, installedAfter), at, i, now);
  }
}
