/** The version record and the heal that moves it (crates/cli/src/heal.rs). The
    migration runner, the open items, the plugin folder and the store faults are
    inputs of one run. */
module Heal {
  import opened Base
  import opened Folds
  import opened Text
  import opened Store
  import Versions

  const BINARY_KEY := "versions/binary"
  const SCHEMA_KEY := "versions/schema"
  const PLUGIN_KEY := "versions/plugin"
  const PENDING_KEY := "versions/pending"
  const FAILED_AT_KEY := "versions/failed-at"
  const LEGACY_SCHEMA: nat := 20
  const RETRY_AFTER_SECS: nat := 24 * 60 * 60
  const LEGACY_PREFIX: nat := 5
  const STATUSLINE_MIGRATION := "statusline-rust-command"

  datatype Record = Record(
    binary: Option<string>, schema: nat, plugin: Option<string>, pending: seq<string>, failedAt: Option<nat>)

  /** The slug of an id; a numbered id of an older release loses its number. */
  function SlugOf(id: string, legacy: set<string>): string {
    if id in legacy && |id| >= LEGACY_PREFIX then id[LEGACY_PREFIX..] else id
  }

  function Slugs(ids: seq<string>, legacy: set<string>): (slugs: seq<string>)
    ensures |slugs| == |ids| && forall i :: 0 <= i < |ids| ==> slugs[i] == SlugOf(ids[i], legacy)
  {
    seq(|ids|, i requires 0 <= i < |ids| => SlugOf(ids[i], legacy))
  }

  function ParseRow(row: Option<string>, limit: nat): Option<nat> {
    if row.None? then None else ParseUnsigned(row.value, limit)
  }

  function FromRows(rows: Rows, legacy: set<string>): Record {
    var pending := Filled(rows, PENDING_KEY);
    Record(Filled(rows, BINARY_KEY),
           ParseRow(Filled(rows, SCHEMA_KEY), U32_LIMIT).GetOr(0),
           Filled(rows, PLUGIN_KEY),
           if pending.None? then [] else Slugs(SplitOn(pending.value, ','), legacy),
           ParseRow(Filled(rows, FAILED_AT_KEY), U64_LIMIT))
  }

  function StoredRows(rows: Rows, r: Record): Rows {
    var written := rows[BINARY_KEY := r.binary.GetOr("")][SCHEMA_KEY := Digits(r.schema)]
      [PLUGIN_KEY := r.plugin.GetOr("")][PENDING_KEY := Join(r.pending, ',')];
    match r.failedAt
    case Some(at) => written[FAILED_AT_KEY := Digits(at)]
    case None => written - {FAILED_AT_KEY}
  }

  lemma KeysDiffer()
    ensures BINARY_KEY != SCHEMA_KEY && BINARY_KEY != PLUGIN_KEY && BINARY_KEY != PENDING_KEY
    ensures BINARY_KEY != FAILED_AT_KEY && SCHEMA_KEY != PLUGIN_KEY && SCHEMA_KEY != PENDING_KEY
    ensures SCHEMA_KEY != FAILED_AT_KEY && PLUGIN_KEY != PENDING_KEY && PLUGIN_KEY != FAILED_AT_KEY
    ensures PENDING_KEY != FAILED_AT_KEY
  {
    assert PLUGIN_KEY[10] != PENDING_KEY[10];
  }

  lemma JoinIsEmpty(parts: seq<string>)
    ensures Join(parts, ',') == "" <==> parts == [] || parts == [""]
  {}

  /** The pending ids as they read back. */
  lemma PendingReadsBack(ids: seq<string>, legacy: set<string>)
    ensures (if Join(ids, ',') == "" then [] else Slugs(SplitOn(Join(ids, ','), ','), legacy)) == ids <==>
      ids != [""] && forall i :: 0 <= i < |ids| ==> ',' !in ids[i] && SlugOf(ids[i], legacy) == ids[i]
  {
    JoinIsEmpty(ids);
    if ids != [] && ids != [""] {
      var parts := SplitOn(Join(ids, ','), ',');
      SplitJoin(ids, ',');
      SplitPartsClean(Join(ids, ','), ',');
      var slugs := Slugs(parts, legacy);
      if slugs == ids {
        forall i | 0 <= i < |ids| ensures ',' !in ids[i] {
          assert ids[i] == SlugOf(parts[i], legacy);
        }
        assert parts == ids;
      } else if forall i :: 0 <= i < |ids| ==> ',' !in ids[i] && SlugOf(ids[i], legacy) == ids[i] {
        assert false;
      }
    }
  }

  lemma StoredFields(rows: Rows, r: Record)
    ensures var w := StoredRows(rows, r);
      && Get(w, BINARY_KEY) == Some(r.binary.GetOr("")) && Get(w, SCHEMA_KEY) == Some(Digits(r.schema))
      && Get(w, PLUGIN_KEY) == Some(r.plugin.GetOr("")) && Get(w, PENDING_KEY) == Some(Join(r.pending, ','))
      && Get(w, FAILED_AT_KEY) == if r.failedAt.Some? then Some(Digits(r.failedAt.value)) else None
  {
    KeysDiffer();
  }

  /** A written record reads back exactly when its versions are not empty texts
      and its ids are comma-free slugs. */
  lemma RecordReadsBack(rows: Rows, r: Record, legacy: set<string>)
    requires r.schema < U32_LIMIT && (r.failedAt.Some? ==> r.failedAt.value < U64_LIMIT)
    ensures FromRows(StoredRows(rows, r), legacy) == r <==>
      && r.binary != Some("") && r.plugin != Some("") && r.pending != [""]
      && forall i :: 0 <= i < |r.pending| ==> ',' !in r.pending[i] && SlugOf(r.pending[i], legacy) == r.pending[i]
  {
    StoredFields(rows, r);
    DigitsReadBack(r.schema, U32_LIMIT);
    if r.failedAt.Some? {
      DigitsReadBack(r.failedAt.value, U64_LIMIT);
    }
    PendingReadsBack(r.pending, legacy);
  }

  /** How the record compares with the running version. */
  function CompareWith(r: Record, binary: string): Order {
    if r.binary.None? then Less else Versions.Compare(r.binary.value, binary)
  }

  datatype Trigger = Hook | Fix | Start | Init(failed: bool, statusline: bool)

  datatype Skip = StateUnreadable | Downgrade | WaitingAfterFailure | LockBusy | RealHomeUnderTest

  /** What the migration runner reports. */
  datatype Report = Report(
    lockBusy: bool, changedSteps: seq<string>, failedSteps: seq<string>, failed: bool, timedOut: bool)

  /** What a run meets: the home, the store and the migrations. */
  datatype World = World(
    refused: bool, readable: bool, writable: bool, report: Report, open: seq<string>,
    plugin: Option<string>, legacy: set<string>)

  datatype Outcome = Outcome(
    changed: seq<string>, failed: seq<string>, open: seq<string>, recorded: bool, timedOut: bool,
    skipped: Option<Skip>, listed: bool)
  {
    function ExitCode(): int {
      var blocked := skipped == Some(StateUnreadable) || skipped == Some(LockBusy)
        || skipped == Some(RealHomeUnderTest);
      var unrecorded := skipped.None? && !recorded;
      if blocked || unrecorded || failed != [] then 1 else 0
    }

    predicate ListedOpen() {
      listed && skipped.None? && failed == [] && !timedOut
    }
  }

  const DEFAULT := Outcome([], [], [], false, false, None, false)

  function Skipped(skip: Skip): Outcome {
    DEFAULT.(skipped := Some(skip))
  }

  /** The open items among `ids`. */
  function OpenAmong(open: seq<string>, ids: seq<string>): seq<string> {
    Kept(open, (id: string) => id in ids)
  }

  function WithoutStatusline(open: seq<string>): seq<string> {
    Kept(open, (id: string) => id != STATUSLINE_MIGRATION)
  }

  predicate Waiting(r: Record, now: nat) {
    r.failedAt.Some? && SatSub(now, r.failedAt.value) < RETRY_AFTER_SECS
  }

  // ---- What each step leaves: the rows and the outcome.

  function CleanRecord(running: string, w: World, open: seq<string>): Record {
    Record(Some(running), LEGACY_SCHEMA, w.plugin, open, None)
  }

  function Cleaned(rows: Rows, running: string, w: World, out: Outcome): (Rows, Outcome) {
    (if w.writable then StoredRows(rows, CleanRecord(running, w, out.open)) else rows,
     out.(listed := true, recorded := w.writable))
  }

  function Migrated(rows: Rows, now: nat, running: string, w: World): (Rows, Outcome) {
    if w.report.lockBusy then (rows, Skipped(LockBusy))
    else
      var out := DEFAULT.(changed := w.report.changedSteps, failed := w.report.failedSteps);
      if w.report.timedOut then (rows, out.(timedOut := true))
      else if w.report.failed then
        (if w.writable then rows[FAILED_AT_KEY := Digits(now)] else rows, out)
      else Cleaned(rows, running, w, out.(open := w.open))
  }

  function Rechecked(rows: Rows, r: Record, w: World): (Rows, Outcome) {
    if r.pending == [] then (rows, DEFAULT.(listed := true))
    else
      var open := OpenAmong(w.open, r.pending);
      var text := Join(open, ',');
      (if Get(rows, PENDING_KEY) != Some(text) && w.writable
       then rows[PENDING_KEY := text][SCHEMA_KEY := Digits(LEGACY_SCHEMA)] else rows,
       DEFAULT.(open := open, recorded := true, listed := true))
  }

  function HealedFor(rows: Rows, trigger: Trigger, now: nat, running: string, w: World, r: Record,
                     order: Order): (Rows, Outcome)
  {
    match trigger
    case Init(failed, statusline) =>
      var open := if statusline then w.open else WithoutStatusline(w.open);
      var out := DEFAULT.(open := open);
      if failed then (rows, out) else Cleaned(rows, running, w, out)
    case Fix => Migrated(rows, now, running, w)
    case _ =>
      if trigger == Hook && order == Equal then Rechecked(rows, r, w)
      else if trigger == Start && order == Equal then (rows, DEFAULT)
      else if Waiting(r, now) then
        (rows, Skipped(WaitingAfterFailure).(open := OpenAmong(w.open, r.pending), listed := true))
      else Migrated(rows, now, running, w)
  }

  /** One whole heal run. */
  function Healed(rows: Rows, trigger: Trigger, now: nat, running: string, w: World): (Rows, Outcome) {
    if w.refused then (rows, Skipped(RealHomeUnderTest))
    else if !w.readable then (rows, Skipped(StateUnreadable))
    else
      var r := FromRows(rows, w.legacy);
      var order := CompareWith(r, running);
      if order == Greater then (rows, Skipped(Downgrade))
      else HealedFor(rows, trigger, now, running, w, r, order)
  }

  // ---- The methods that change the rows.

  method WriteRecord(state: State, r: Record, writable: bool) returns (ok: bool)
    modifies state
    ensures ok == writable
    ensures state.rows == if writable then StoredRows(old(state.rows), r) else old(state.rows)
  {
    ok := writable;
    if writable {
      var rows := state.rows[BINARY_KEY := r.binary.GetOr("")];
      rows := rows[SCHEMA_KEY := Digits(r.schema)];
      rows := rows[PLUGIN_KEY := r.plugin.GetOr("")];
      rows := rows[PENDING_KEY := Join(r.pending, ',')];
      if r.failedAt.Some? {
        rows := rows[FAILED_AT_KEY := Digits(r.failedAt.value)];
      } else {
        rows := rows - {FAILED_AT_KEY};
      }
      state.rows := rows;
    }
  }

  method RecordClean(state: State, running: string, w: World, out: Outcome) returns (done: Outcome)
    modifies state
    ensures (state.rows, done) == Cleaned(old(state.rows), running, w, out)
  {
    var ok := WriteRecord(state, Record(Some(running), LEGACY_SCHEMA, w.plugin, out.open, None), w.writable);
    done := out.(listed := true, recorded := ok);
  }

  method HealNow(state: State, now: nat, running: string, w: World) returns (out: Outcome)
    modifies state
    ensures (state.rows, out) == Migrated(old(state.rows), now, running, w)
  {
    if w.report.lockBusy {
      return Skipped(LockBusy);
    }
    out := DEFAULT.(changed := w.report.changedSteps, failed := w.report.failedSteps);
    if w.report.timedOut {
      out := out.(timedOut := true);
      return;
    }
    if w.report.failed {
      if w.writable {
        state.rows := state.rows[FAILED_AT_KEY := Digits(now)];
      }
      return;
    }
    out := RecordClean(state, running, w, out.(open := w.open));
  }

  method RecheckPending(state: State, r: Record, w: World) returns (out: Outcome)
    modifies state
    ensures (state.rows, out) == Rechecked(old(state.rows), r, w)
  {
    if r.pending == [] {
      return DEFAULT.(listed := true);
    }
    var open := OpenAmong(w.open, r.pending);
    var pending := Join(open, ',');
    if Get(state.rows, PENDING_KEY) != Some(pending) && w.writable {
      state.rows := state.rows[PENDING_KEY := pending];
      state.rows := state.rows[SCHEMA_KEY := Digits(LEGACY_SCHEMA)];
    }
    out := DEFAULT.(open := open, recorded := true, listed := true);
  }

  method RunWith(state: State, trigger: Trigger, now: nat, running: string, w: World) returns (out: Outcome)
    modifies state
    ensures (state.rows, out) == Healed(old(state.rows), trigger, now, running, w)
  {
    if w.refused {
      return Skipped(RealHomeUnderTest);
    }
    if !w.readable {
      return Skipped(StateUnreadable);
    }
    var r := FromRows(state.rows, w.legacy);
    var order := CompareWith(r, running);
    if order == Greater {
      return Skipped(Downgrade);
    }
    if trigger.Init? {
      out := DEFAULT.(open := if trigger.statusline then w.open else WithoutStatusline(w.open));
      if !trigger.failed {
        out := RecordClean(state, running, w, out);
      }
    } else if trigger.Fix? {
      out := HealNow(state, now, running, w);
    } else if trigger.Hook? && order == Equal {
      out := RecheckPending(state, r, w);
    } else if order == Equal {
      out := DEFAULT;
    } else if Waiting(r, now) {
      out := Skipped(WaitingAfterFailure).(open := OpenAmong(w.open, r.pending), listed := true);
    } else {
      out := HealNow(state, now, running, w);
    }
  }
}
