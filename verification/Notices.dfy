/** The release line shown once after an upgrade, and the one-shot lines a
    detached refresh leaves (crates/cli/src/notices.rs). */
module Notices {
  import opened Base
  import opened Store
  import opened Versions

  const BINARY_KEY := "notices/binary"
  const OLD_PLUGIN_KEY := "notices/plugin"

  /** The line that names the release notes of `to`. */
  datatype Line = Line(from: Option<string>, to: string)

  /** The move of the key one step will make, and the line it then shows. */
  datatype Pending = Pending(change: Option<(Option<string>, string)>, line: Option<Line>)

  const NOTHING := Pending(None, None)

  /** What a step of version `running` will show. `binary` is the version of the
      heal record, `older` says an older binary ran here. */
  function Prepare(rows: Rows, readable: bool, running: string, binary: Option<string>, older: bool): Pending {
    var before := Filled(rows, BINARY_KEY);
    if !readable || before == Some(running) then NOTHING
    else
      var change := Some((before, running));
      var start := if before.Some? then before else binary;
      match start
      case Some(from) =>
        (match Compare(from, running)
         case Less => Pending(change, Some(Line(Some(from), running)))
         case Equal => Pending(change, None)
         case Greater => NOTHING)
      case None => Pending(change, if older then Some(Line(None, running)) else None)
  }

  predicate Wins(pending: Pending, rows: Rows) {
    pending.change.Some? && Filled(rows, BINARY_KEY) == pending.change.value.0
  }

  function Committed(pending: Pending, rows: Rows): Rows {
    if Wins(pending, rows) then rows[BINARY_KEY := pending.change.value.1] - {OLD_PLUGIN_KEY} else rows
  }

  /** Makes a prepared move, unless another process was faster; only the mover
      gets the line. */
  method Commit(pending: Pending, state: State, writable: bool) returns (line: Option<Line>)
    modifies state
    ensures state.rows == if writable then Committed(pending, old(state.rows)) else old(state.rows)
    ensures line == if writable && Wins(pending, old(state.rows)) then pending.line else None
  {
    line := None;
    if pending.change.Some? && writable {
      var (before, to) := pending.change.value;
      if Filled(state.rows, BINARY_KEY) == before {
        state.rows := state.rows[BINARY_KEY := to];
        state.rows := state.rows - {OLD_PLUGIN_KEY};
        line := pending.line;
      }
    }
  }

  function Recorded(rows: Rows, version: string): Rows {
    rows[BINARY_KEY := version]
  }

  /** The caller printed the notes of this version itself. */
  method RecordShown(state: State, version: string, writable: bool)
    modifies state
    ensures state.rows == if writable then Recorded(old(state.rows), version) else old(state.rows)
  {
    if writable {
      state.rows := state.rows[BINARY_KEY := version];
    }
  }

  /** Keeps the outcome line of a refresh until a session shows it. */
  method StoreNotice(state: State, key: string, line: string, writable: bool)
    modifies state
    ensures state.rows == if writable then old(state.rows)[key := line] else old(state.rows)
  {
    if writable {
      state.rows := state.rows[key := line];
    }
  }

  /** Takes the stored line: whoever gets it leaves nothing for the next one. */
  method TakeNotice(state: State, key: string, writable: bool) returns (line: Option<string>)
    modifies state
    ensures line == if writable then Filled(old(state.rows), key) else None
    ensures line.Some? ==> state.rows == old(state.rows) - {key} && Filled(state.rows, key).None?
    ensures line.None? ==> state.rows == old(state.rows)
  {
    line := None;
    if Filled(state.rows, key).Some? && writable {
      line := Filled(state.rows, key);
      state.rows := state.rows - {key};
    }
  }
}
