/** What a heal run leaves in the record and says in its outcome, field by field. */
module HealMeaning {
  import opened Base
  import opened Folds
  import opened Text
  import opened Store
  import opened Heal
  import opened HealRuns
  import Versions

  lemma OpenAmongHolds(open: seq<string>, ids: seq<string>, id: string)
    ensures id in OpenAmong(open, ids) <==> id in open && id in ids
  {
    KeptMembers(open, (other: string) => other in ids, id);
  }

  lemma WithoutStatuslineHolds(open: seq<string>, id: string)
    ensures id in WithoutStatusline(open) <==> id in open && id != "statusline-rust-command"
  {
    KeptMembers(open, (other: string) => other != STATUSLINE_MIGRATION, id);
  }

  /** The items that wait stay in the order they are checked in. */
  lemma OpenKeepsOrder(front: seq<string>, back: seq<string>, ids: seq<string>)
    ensures OpenAmong(front + back, ids) == OpenAmong(front, ids) + OpenAmong(back, ids)
    ensures WithoutStatusline(front + back) == WithoutStatusline(front) + WithoutStatusline(back)
  {
    KeptSplit(front, back, (id: string) => id in ids);
    KeptSplit(front, back, (id: string) => id != STATUSLINE_MIGRATION);
  }

  /** A failure holds a day from its time on, and from any later time. */
  lemma WaitingExactly(r: Record, now: nat)
    ensures Waiting(r, now) <==> r.failedAt.Some? && now < r.failedAt.value + 24 * 60 * 60
  {
  }

  /** A numbered id of an older release is its number, a dash and the slug. */
  lemma SlugOfNumbered(number: string, slug: string, legacy: set<string>)
    requires |number| == 5
    ensures SlugOf(number + slug, legacy) == if number + slug in legacy then slug else number + slug
  {
    assert (number + slug)[5..] == slug;
  }

  /** A store without a record is older than every binary, so each check and fix
      starts the migrations. */
  lemma FreshStoreStarts(rows: Rows, run: Run)
    requires forall key :: key in {BINARY_KEY, SCHEMA_KEY, PLUGIN_KEY, PENDING_KEY, FAILED_AT_KEY} ==>
      Filled(rows, key).None?
    ensures FromRows(rows, run.world.legacy) == Record(None, 0, None, [], None)
    ensures StartsMigrations(rows, run) <==> !run.world.refused && run.world.readable && !run.trigger.Init?
  {
    assert Filled(rows, BINARY_KEY).None? && Filled(rows, SCHEMA_KEY).None? && Filled(rows, PLUGIN_KEY).None?;
    assert Filled(rows, PENDING_KEY).None? && Filled(rows, FAILED_AT_KEY).None?;
  }

  // ---- The record.

  /** The id can be stored in a list and reads back as itself. */
  predicate Storable(id: string, legacy: set<string>) {
    ',' !in id && SlugOf(id, legacy) == id
  }

  predicate AllStorable(ids: seq<string>, legacy: set<string>) {
    ids != [""] && forall i :: 0 <= i < |ids| ==> Storable(ids[i], legacy)
  }

  /** The migration runner ran to its end, or setup did. */
  predicate Finished(rows: Rows, run: Run) {
    match run.trigger
    case Init(failed, _) => Admitted(rows, run) && !failed
    case _ => StartsMigrations(rows, run) && Clean(run.world.report)
  }

  /** A hook on the binary of the record checks the waiting ids again. */
  predicate Rechecks(rows: Rows, run: Run) {
    var r := FromRows(rows, run.world.legacy);
    run.trigger == Hook && Admitted(rows, run) && CompareWith(r, run.running) == Equal && r.pending != []
  }

  /** The open items of a finished run: all of them, but for setup without a status
      line. */
  function OpenAfter(run: Run): seq<string> {
    if run.trigger.Init? && !run.trigger.statusline then WithoutStatusline(run.world.open) else run.world.open
  }

  /** The record a clean finish stores. */
  function FinishedRecord(run: Run): Record {
    Record(Some(run.running), 20, run.world.plugin, OpenAfter(run), None)
  }

  /** The four things a run can do to the rows. */
  lemma RowsAfterAre(rows: Rows, run: Run)
    ensures RowsAfter(rows, run) ==
      if CleanFinish(rows, run) then StoredRows(rows, FinishedRecord(run))
      else if RecordsFailure(rows, run) then rows[FAILED_AT_KEY := Digits(run.now)]
      else if Rechecks(rows, run) then Rechecked(rows, FromRows(rows, run.world.legacy), run.world).0
      else rows
  {
  }

  /** After a clean finish the record names this binary, the plugin that was found
      and the open items the outcome lists, and no failure. */
  lemma FinishRecords(rows: Rows, run: Run)
    requires CleanFinish(rows, run) && run.running != "" && run.world.plugin != Some("")
    requires AllStorable(OpenAfter(run), run.world.legacy)
    ensures OutcomeOf(rows, run).open == OpenAfter(run)
    ensures FromRows(RowsAfter(rows, run), run.world.legacy) ==
      Record(Some(run.running), 20, run.world.plugin, OutcomeOf(rows, run).open, None)
  {
    RowsAfterAre(rows, run);
    RecordReadsBack(rows, FinishedRecord(run), run.world.legacy);
    OutcomeSays(rows, run);
  }

  /** A failed run stores its time and leaves the rest of the record. */
  lemma FailureRecords(rows: Rows, run: Run)
    requires RecordsFailure(rows, run) && run.now < U64_LIMIT
    ensures FromRows(RowsAfter(rows, run), run.world.legacy) ==
      FromRows(rows, run.world.legacy).(failedAt := Some(run.now))
  {
    RowsAfterAre(rows, run);
    KeysDiffer();
    DigitsReadBack(run.now, U64_LIMIT);
  }

  /** The rows after a recheck: the ids that are still open, and the schema when the
      text of the ids changed. */
  lemma RecheckedRows(rows: Rows, r: Record, w: World, open: seq<string>)
    requires r.pending != [] && w.writable && open == OpenAmong(w.open, r.pending)
    ensures var after := Rechecked(rows, r, w).0;
      && Get(after, PENDING_KEY) == Some(Join(open, ','))
      && (Get(after, SCHEMA_KEY) == Get(rows, SCHEMA_KEY) || Get(after, SCHEMA_KEY) == Some(Digits(LEGACY_SCHEMA)))
      && forall key :: key != PENDING_KEY && key != SCHEMA_KEY ==> Get(after, key) == Get(rows, key)
  {
    KeysDiffer();
  }

  lemma FieldsOf(rows: Rows, legacy: set<string>)
    ensures var r := FromRows(rows, legacy);
      && (Get(rows, SCHEMA_KEY) == Some(Digits(LEGACY_SCHEMA)) ==> r.schema == 20)
      && forall open :: Get(rows, PENDING_KEY) == Some(Join(open, ',')) && AllStorable(open, legacy) ==>
           r.pending == open
  {
    DigitsReadBack(LEGACY_SCHEMA, U32_LIMIT);
    forall open | Get(rows, PENDING_KEY) == Some(Join(open, ',')) && AllStorable(open, legacy)
      ensures FromRows(rows, legacy).pending == open
    {
      PendingReadsBack(open, legacy);
    }
  }

  /** A recheck keeps exactly the waiting ids that are still open, in the order they
      are found, and changes nothing else of the record but its schema. */
  lemma RecheckRecords(rows: Rows, run: Run)
    requires Rechecks(rows, run) && run.world.writable
    requires AllStorable(OutcomeOf(rows, run).open, run.world.legacy)
    ensures var (before, after) := (FromRows(rows, run.world.legacy), FromRows(RowsAfter(rows, run), run.world.legacy));
      && OutcomeOf(rows, run).open == OpenAmong(run.world.open, before.pending)
      && after.pending == OutcomeOf(rows, run).open
      && (after == before.(pending := after.pending) || after == before.(pending := after.pending, schema := 20))
  {
    var (legacy, after) := (run.world.legacy, RowsAfter(rows, run));
    var r := FromRows(rows, legacy);
    RowsAfterAre(rows, run);
    OutcomeSays(rows, run);
    RecheckedRows(rows, r, run.world, OutcomeOf(rows, run).open);
    FieldsOf(after, legacy);
    KeysDiffer();
  }

  /** A run that neither finishes, fails nor checks again leaves every row. */
  lemma OtherRunsKeepRows(rows: Rows, run: Run)
    requires !CleanFinish(rows, run) && !RecordsFailure(rows, run) && !(Rechecks(rows, run) && run.world.writable)
    ensures RowsAfter(rows, run) == rows
  {
    RowsAfterAre(rows, run);
  }

  /** No run touches a row outside of the record. */
  lemma OtherRowsStay(rows: Rows, run: Run, key: string)
    requires key !in {BINARY_KEY, SCHEMA_KEY, PLUGIN_KEY, PENDING_KEY, FAILED_AT_KEY}
    ensures Get(RowsAfter(rows, run), key) == Get(rows, key)
  {
    RowsAfterAre(rows, run);
  }

  // ---- The outcome.

  /** Why a run did nothing, if it did nothing. */
  function SkipOf(rows: Rows, run: Run): Option<Skip> {
    if run.world.refused then Some(RealHomeUnderTest)
    else if !run.world.readable then Some(StateUnreadable)
    else
      var r := FromRows(rows, run.world.legacy);
      var order := CompareWith(r, run.running);
      if order == Greater then Some(Downgrade)
      else if StartsMigrations(rows, run) then (if run.world.report.lockBusy then Some(LockBusy) else None)
      else if (run.trigger == Hook || run.trigger == Start) && order == Less then Some(WaitingAfterFailure)
      else None
  }

  /** What the migrations of a run did, when they ran. */
  predicate SaysWhatRan(out: Outcome, rows: Rows, run: Run) {
    var report := run.world.report;
    var ran := StartsMigrations(rows, run) && !report.lockBusy;
    && out.changed == (if ran then report.changedSteps else [])
    && out.failed == (if ran then report.failedSteps else [])
    && (out.timedOut <==> ran && report.timedOut)
  }

  /** Which items are open, whether that list is complete, and whether it was
      stored. */
  predicate SaysWhatIsOpen(out: Outcome, rows: Rows, run: Run) {
    var r := FromRows(rows, run.world.legacy);
    var waits := out.skipped == Some(WaitingAfterFailure);
    var sameBinary := Admitted(rows, run) && run.trigger == Hook && CompareWith(r, run.running) == Equal;
    && (out.listed <==> Finished(rows, run) || waits || sameBinary)
    && (out.recorded <==> CleanFinish(rows, run) || Rechecks(rows, run))
    && out.open ==
         if Rechecks(rows, run) || waits then OpenAmong(run.world.open, r.pending)
         else if Finished(rows, run) || (run.trigger.Init? && Admitted(rows, run)) then OpenAfter(run)
         else []
  }

  /** The outcome of every run: why it did nothing, if it did nothing, and what it
      did and found else. */
  lemma OutcomeSays(rows: Rows, run: Run)
    ensures OutcomeOf(rows, run).skipped == SkipOf(rows, run)
    ensures SaysWhatRan(OutcomeOf(rows, run), rows, run)
    ensures SaysWhatIsOpen(OutcomeOf(rows, run), rows, run)
  {
    if Admitted(rows, run) {
      match run.trigger
      case Init(_, _) => SetupSays(rows, run);
      case Fix => FixSays(rows, run);
      case _ => CheckSays(rows, run);
    }
  }

  lemma SetupSays(rows: Rows, run: Run)
    requires Admitted(rows, run) && run.trigger.Init?
    ensures var out := OutcomeOf(rows, run);
      out.skipped == SkipOf(rows, run) && SaysWhatRan(out, rows, run) && SaysWhatIsOpen(out, rows, run)
  {
  }

  lemma FixSays(rows: Rows, run: Run)
    requires Admitted(rows, run) && run.trigger == Fix
    ensures var out := OutcomeOf(rows, run);
      out.skipped == SkipOf(rows, run) && SaysWhatRan(out, rows, run) && SaysWhatIsOpen(out, rows, run)
  {
    assert OutcomeOf(rows, run) == Migrated(rows, run.now, run.running, run.world).1;
  }

  lemma CheckSays(rows: Rows, run: Run)
    requires Admitted(rows, run) && (run.trigger == Hook || run.trigger == Start)
    ensures var out := OutcomeOf(rows, run);
      out.skipped == SkipOf(rows, run) && SaysWhatRan(out, rows, run) && SaysWhatIsOpen(out, rows, run)
  {
    if StartsMigrations(rows, run) {
      assert OutcomeOf(rows, run) == Migrated(rows, run.now, run.running, run.world).1;
    }
  }

  /** The list of open items is complete exactly after a finish without a failed
      step, and after a hook on the binary of the record. */
  lemma CompleteExactly(rows: Rows, run: Run)
    ensures OutcomeOf(rows, run).ListedOpen() <==>
      || (Finished(rows, run) && (run.trigger.Init? || run.world.report.failedSteps == []))
      || (Admitted(rows, run) && run.trigger == Hook
          && CompareWith(FromRows(rows, run.world.legacy), run.running) == Equal)
  {
    OutcomeSays(rows, run);
  }

  // ---- A fix, and the hook after it.

  /** A clean fix and then a hook of the same binary list the same open items, as
      long as they stay open. */
  lemma HookListsWhatTheFixLeft(rows: Rows, fix: Run, hook: Run)
    requires fix.trigger == Fix && CleanFinish(rows, fix) && fix.running != "" && fix.world.plugin != Some("")
    requires AllStorable(fix.world.open, fix.world.legacy)
    requires hook.trigger == Hook && hook.running == fix.running && hook.world.legacy == fix.world.legacy
    requires !hook.world.refused && hook.world.readable && hook.world.open == fix.world.open
    ensures OutcomeOf(RowsAfter(rows, fix), hook).open == OutcomeOf(rows, fix).open == fix.world.open
  {
    FinishRecords(rows, fix);
    Versions.CompareFlip(fix.running, fix.running);
    var now := RowsAfter(rows, fix);
    OutcomeSays(now, hook);
    if fix.world.open != [] {
      AllAmong(fix.world.open, fix.world.open);
    }
  }

  lemma {:induction false} AllAmong(open: seq<string>, ids: seq<string>)
    requires forall id :: id in open ==> id in ids
    ensures OpenAmong(open, ids) == open
  {
    if open != [] {
      AllAmong(open[1..], ids);
      assert open == [open[0]] + open[1..];
    }
  }
}
