/** The `state` table (crates/cli/src/state/mod.rs): text rows that every
    playbook process of a home shares. Each method that takes a `State` is one
    transaction on it. */
module Store {
  import opened Base

  type Rows = map<string, string>

  function Get(rows: Rows, key: string): Option<string> {
    if key in rows then Some(rows[key]) else None
  }

  /** The row, where an empty text counts as no row. */
  function Filled(rows: Rows, key: string): Option<string> {
    if key in rows && rows[key] != "" then Some(rows[key]) else None
  }

  class State {
    var rows: Rows

    constructor (rows: Rows)
      ensures this.rows == rows
    {
      this.rows := rows;
    }
  }
}
