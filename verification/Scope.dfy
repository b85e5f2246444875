/** Narrowing the gate to one language (crates/code-bench/src/scope.rs), and the
    legs of the nightly matrix that judge one language each
    (crates/code-bench/src/main.rs). */
module Scope {
  import opened Base
  import opened Folds
  import opened Runner
  import opened Gate
  import opened GateRules
  import Corpus

  function Names(repos: seq<Corpus.Repo>, language: string): seq<string> {
    if repos == [] then []
    else (if repos[0].language == language then [repos[0].name] else []) + Names(repos[1..], language)
  }

  function RowIn(names: seq<string>): RepoReport -> bool {
    (row: RepoReport) => row.repo in names
  }

  function WaiverIn(names: seq<string>): Waiver -> bool {
    (waiver: Waiver) => waiver.repo in names
  }

  function CellIn(names: seq<string>): FloorCell -> bool {
    (cell: FloorCell) => cell.repo in names
  }

  function NarrowedBaseline(b: Baseline, names: seq<string>): Baseline {
    b.(repos := Kept(b.repos, RowIn(names)), waivers := Kept(b.waivers, WaiverIn(names)))
  }

  function NarrowedFloor(floor: Floor, names: seq<string>): Floor {
    floor.(cells := Kept(floor.cells, CellIn(names)))
  }

  method Retain<T>(s: seq<T>, keep: T -> bool) returns (kept: seq<T>)
    ensures kept == Kept(s, keep)
  {
    kept := [];
    for k := 0 to |s|
      invariant kept + Kept(s[k..], keep) == Kept(s, keep)
    {
      assert s[k..][1..] == s[k + 1..];
      if keep(s[k]) {
        kept := kept + [s[k]];
      }
    }
  }

  /** The part of both reference files that one language's leg needs. */
  method ScopeToLanguage(m: Corpus.Manifest, language: string, baseline: Baseline, floor: Floor)
    returns (b: Baseline, f: Floor)
    ensures b == NarrowedBaseline(baseline, Names(m.repos, language))
    ensures f == NarrowedFloor(floor, Names(m.repos, language))
  {
    var keep := Names(m.repos, language);
    var rows := Retain(baseline.repos, RowIn(keep));
    var waivers := Retain(baseline.waivers, WaiverIn(keep));
    var cells := Retain(floor.cells, CellIn(keep));
    b, f := baseline.(repos := rows, waivers := waivers), floor.(cells := cells);
  }

  /** What one leg judges: its language's rows against its language's baseline
      and floor. */
  function Leg(i: Inputs, m: Corpus.Manifest, language: string): Inputs {
    Narrowed(i, Names(m.repos, language))
  }

  function Narrowed(i: Inputs, names: seq<string>): Inputs {
    i.(baseline := NarrowedBaseline(i.baseline, names),
       floor := NarrowedFloor(i.floor, names),
       report := i.report.(repos := Kept(i.report.repos, RowIn(names))))
  }

  // ---- A leg judges each of its rows as the whole gate does.

  lemma {:induction false} FindRepoKept(rows: seq<RepoReport>, names: seq<string>, repo: string)
    requires repo in names
    ensures FindRepo(Kept(rows, RowIn(names)), repo) == FindRepo(rows, repo)
  {
    if rows != [] {
      FindRepoKept(rows[1..], names, repo);
      var rest := Kept(rows[1..], RowIn(names));
      assert ([rows[0]] + rest)[1..] == rest;
      assert [] + rest == rest;
    }
  }

  lemma {:induction false} FindFloorKept(cells: seq<FloorCell>, names: seq<string>, repo: string, kind: QueryKind)
    requires repo in names
    ensures FindFloor(Kept(cells, CellIn(names)), repo, kind) == FindFloor(cells, repo, kind)
  {
    if cells != [] {
      FindFloorKept(cells[1..], names, repo, kind);
      var rest := Kept(cells[1..], CellIn(names));
      assert ([cells[0]] + rest)[1..] == rest;
      assert [] + rest == rest;
    }
  }

  lemma WaivedKept(b: Baseline, names: seq<string>, repo: string, kind: Option<QueryKind>)
    requires repo in names
    ensures Waived(NarrowedBaseline(b, names), repo, kind) <==> Waived(b, repo, kind)
  {
    var kept := NarrowedBaseline(b, names).waivers;
    if Waived(b, repo, kind) {
      var k :| 0 <= k < |b.waivers| && b.waivers[k].repo == repo && b.waivers[k].kind == kind;
      KeptMembers(b.waivers, WaiverIn(names), b.waivers[k]);
      var j :| 0 <= j < |kept| && kept[j] == b.waivers[k];
    }
    if Waived(NarrowedBaseline(b, names), repo, kind) {
      var k :| 0 <= k < |kept| && kept[k].repo == repo && kept[k].kind == kind;
      KeptMembers(b.waivers, WaiverIn(names), kept[k]);
      var j :| 0 <= j < |b.waivers| && b.waivers[j] == kept[k];
    }
  }

  lemma ReportedKept(i: Inputs, names: seq<string>, repo: string)
    requires repo in names
    ensures Reported(Narrowed(i, names), repo) <==> Reported(i, repo)
  {
    var (rows, kept) := (i.report.repos, Narrowed(i, names).report.repos);
    if Reported(i, repo) {
      var k :| 0 <= k < |rows| && rows[k].repo == repo;
      KeptMembers(rows, RowIn(names), rows[k]);
      var j :| 0 <= j < |kept| && kept[j] == rows[k];
    }
    if Reported(Narrowed(i, names), repo) {
      var k :| 0 <= k < |kept| && kept[k].repo == repo;
      KeptMembers(rows, RowIn(names), kept[k]);
      var j :| 0 <= j < |rows| && rows[j] == kept[k];
    }
  }

  lemma OneCellKept(i: Inputs, names: seq<string>, repo: string, cell: Cell)
    requires repo in names
    ensures OneCell(Narrowed(i, names), repo, cell) == OneCell(i, repo, cell)
  {
    FindRepoKept(i.baseline.repos, names, repo);
    FindFloorKept(i.floor.cells, names, repo, cell.kind);
    WaivedKept(i.baseline, names, repo, Some(cell.kind));
  }

  lemma CellsKept(i: Inputs, names: seq<string>, repo: string, cells: seq<Cell>)
    requires repo in names
    ensures CellsFailures(Narrowed(i, names), repo, cells) == CellsFailures(i, repo, cells)
  {
    var (leg, whole) := (CellFinder(Narrowed(i, names), repo), CellFinder(i, repo));
    forall cell | cell in cells ensures leg(cell) == whole(cell) {
      OneCellKept(i, names, repo, cell);
    }
    EachSame(cells, leg, whole);
  }

  /** A leg finds the same failures in a row of its language as the whole gate. */
  lemma LegJudgesAlike(i: Inputs, names: seq<string>, side: Side, row: RepoReport)
    requires row.repo in names
    ensures RowFailures(Narrowed(i, names), side, row) == RowFailures(i, side, row)
  {
    WaivedKept(i.baseline, names, row.repo, None);
    ReportedKept(i, names, row.repo);
    CellsKept(i, names, row.repo, row.cells);
  }

  lemma GlobalAlike(i: Inputs, names: seq<string>)
    ensures GlobalFailures(Narrowed(i, names)) == GlobalFailures(i)
  {
    RemovedAlike(i, names, i.priorTaskIds);
  }

  lemma RemovedAlike(i: Inputs, names: seq<string>, ids: seq<string>)
    ensures RemovedFailures(Narrowed(i, names), ids) == RemovedFailures(i, ids)
  {
    var (leg, whole) := (RemovedFinder(Narrowed(i, names)), RemovedFinder(i));
    forall id | id in ids ensures leg(id) == whole(id) {
    }
    EachSame(ids, leg, whole);
  }

  // ---- The failures of all legs together.

  function Times<T>(n: nat, bag: multiset<T>): multiset<T> {
    if n == 0 then multiset{} else Times(n - 1, bag) + bag
  }

  /** Whether the leg of a language runs this repo. */
  function Runs(m: Corpus.Manifest, repo: string): string -> bool {
    (language: string) => repo in Names(m.repos, language)
  }

  /** How many of the legs run this repo. */
  function Hosts(languages: seq<string>, runs: string -> bool): nat {
    if languages == [] then 0 else (if runs(languages[0]) then 1 else 0) + Hosts(languages[1..], runs)
  }

  /** The failures the leg of a language finds in these rows. */
  function LegFailures(i: Inputs, m: Corpus.Manifest, side: Side, rows: seq<RepoReport>): string -> multiset<Failure> {
    (language: string) =>
      var names := Names(m.repos, language);
      multiset(RowsFailures(Narrowed(i, names), side, Kept(rows, RowIn(names))))
  }

  function SumOver<T>(languages: seq<string>, leg: string -> multiset<T>): multiset<T> {
    if languages == [] then multiset{} else leg(languages[0]) + SumOver(languages[1..], leg)
  }

  /** The failures all legs find in these rows. */
  function LegsFailures(i: Inputs, m: Corpus.Manifest, languages: seq<string>, side: Side,
                        rows: seq<RepoReport>): multiset<Failure>
  {
    SumOver(languages, LegFailures(i, m, side, rows))
  }

  function SumRows<T>(rows: seq<RepoReport>, each: RepoReport -> multiset<T>): multiset<T> {
    if rows == [] then multiset{} else SumRows(rows[..|rows| - 1], each) + each(rows[|rows| - 1])
  }

  /** A row's failures, as often as a leg runs its repo. */
  function Weight(i: Inputs, m: Corpus.Manifest, languages: seq<string>, side: Side): RepoReport -> multiset<Failure> {
    (row: RepoReport) => Times(Hosts(languages, Runs(m, row.repo)), multiset(RowFailures(i, side, row)))
  }

  lemma RowsTakeLast(i: Inputs, names: seq<string>, side: Side, front: seq<RepoReport>, last: RepoReport)
    ensures RowsFailures(Narrowed(i, names), side, Kept(front + [last], RowIn(names))) ==
      RowsFailures(Narrowed(i, names), side, Kept(front, RowIn(names)))
      + if last.repo in names then RowFailures(i, side, last) else []
  {
    var kept := Kept(front, RowIn(names));
    KeptSplit(front, [last], RowIn(names));
    if last.repo in names {
      assert Kept([last], RowIn(names)) == [last];
      assert (kept + [last])[..|kept|] == kept;
      LegJudgesAlike(i, names, side, last);
    } else {
      assert Kept([last], RowIn(names)) == [];
      assert kept + [] == kept;
    }
  }

  lemma LegTakesLast(i: Inputs, m: Corpus.Manifest, language: string, side: Side, front: seq<RepoReport>,
                     last: RepoReport)
    ensures LegFailures(i, m, side, front + [last])(language) ==
      LegFailures(i, m, side, front)(language)
      + if Runs(m, last.repo)(language) then multiset(RowFailures(i, side, last)) else multiset{}
  {
    RowsTakeLast(i, Names(m.repos, language), side, front, last);
  }

  lemma Regroup<T>(here: multiset<T>, mine: multiset<T>, there: multiset<T>, others: multiset<T>)
    ensures (here + mine) + (there + others) == (here + there) + (others + mine)
  {
  }

  lemma {:induction false} SumShifts<T>(languages: seq<string>, before: string -> multiset<T>,
                                        after: string -> multiset<T>,
                                        runs: string -> bool, bag: multiset<T>)
    requires forall l :: after(l) == before(l) + if runs(l) then bag else multiset{}
    ensures SumOver(languages, after) == SumOver(languages, before) + Times(Hosts(languages, runs), bag)
  {
    if languages != [] {
      var (l, rest) := (languages[0], languages[1..]);
      SumShifts(rest, before, after, runs, bag);
      var mine := if runs(l) then bag else multiset{};
      Regroup(before(l), mine, SumOver(rest, before), Times(Hosts(rest, runs), bag));
      assert Times(Hosts(languages, runs), bag) == Times(Hosts(rest, runs), bag) + mine;
    }
  }

  lemma LegsTakeLast(i: Inputs, m: Corpus.Manifest, languages: seq<string>, side: Side, front: seq<RepoReport>,
                     last: RepoReport)
    ensures LegsFailures(i, m, languages, side, front + [last]) ==
      LegsFailures(i, m, languages, side, front)
      + Weight(i, m, languages, side)(last)
  {
    var (before, after) := (LegFailures(i, m, side, front), LegFailures(i, m, side, front + [last]));
    var (runs, bag) := (Runs(m, last.repo), multiset(RowFailures(i, side, last)));
    forall l ensures after(l) == before(l) + if runs(l) then bag else multiset{} {
      LegTakesLast(i, m, l, side, front, last);
    }
    SumShifts(languages, before, after, runs, bag);
  }

  lemma {:induction false} SumOfNothing<T>(languages: seq<string>, leg: string -> multiset<T>)
    requires forall l :: leg(l) == multiset{}
    ensures SumOver(languages, leg) == multiset{}
  {
    if languages != [] {
      SumOfNothing(languages[1..], leg);
    }
  }

  lemma LegsFindNothingInNothing(i: Inputs, m: Corpus.Manifest, languages: seq<string>, side: Side)
    ensures LegsFailures(i, m, languages, side, []) == multiset{}
  {
    SumOfNothing(languages, LegFailures(i, m, side, []));
  }

  /** What one more last row adds to the total. */
  ghost predicate Grows<T>(total: seq<RepoReport> -> multiset<T>, each: RepoReport -> multiset<T>,
                           front: seq<RepoReport>, last: RepoReport)
  {
    total(front + [last]) == total(front) + each(last)
  }

  lemma {:induction false} TotalIsSum<T>(rows: seq<RepoReport>, total: seq<RepoReport> -> multiset<T>,
                                         each: RepoReport -> multiset<T>)
    requires total([]) == multiset{}
    requires forall front, last :: Grows(total, each, front, last)
    ensures total(rows) == SumRows(rows, each)
  {
    if rows != [] {
      var (front, last) := (rows[..|rows| - 1], rows[|rows| - 1]);
      TotalIsSum(front, total, each);
      assert Grows(total, each, front, last);
      assert front + [last] == rows;
    } else {
      assert rows == [];
    }
  }

  /** Together the legs find each row's failures exactly as often as a leg runs
      its repo: never when no manifest entry names it. */
  lemma LegsAddUp(i: Inputs, m: Corpus.Manifest, languages: seq<string>, side: Side, rows: seq<RepoReport>)
    ensures LegsFailures(i, m, languages, side, rows) == SumRows(rows, Weight(i, m, languages, side))
  {
    var total := (some: seq<RepoReport>) => LegsFailures(i, m, languages, side, some);
    LegsFindNothingInNothing(i, m, languages, side);
    forall front, last ensures Grows(total, Weight(i, m, languages, side), front, last) {
      LegsTakeLast(i, m, languages, side, front, last);
    }
    TotalIsSum(rows, total, Weight(i, m, languages, side));
  }

  /** The repo has one manifest entry, and a leg runs its language. */
  ghost predicate ListedOnce(m: Corpus.Manifest, languages: seq<string>, repo: string) {
    exists k ::
      && 0 <= k < |m.repos| && m.repos[k].name == repo && m.repos[k].language in languages
      && forall j :: 0 <= j < |m.repos| && m.repos[j].name == repo ==> j == k
  }

  /** A valid manifest lists a repo once, whenever it lists it. */
  lemma ValidManifestListsOnce(m: Corpus.Manifest, languages: seq<string>, k: nat)
    requires Corpus.IsValid(m) && k < |m.repos| && m.repos[k].language in languages
    ensures ListedOnce(m, languages, m.repos[k].name)
  {
    forall j | 0 <= j < |m.repos| && m.repos[j].name == m.repos[k].name ensures j == k {
      assert m.repos[Min(j, k)].name == m.repos[Max(j, k)].name;
    }
  }

  ghost predicate NoRepeats(s: seq<string>) {
    forall j, k :: 0 <= j < k < |s| ==> s[j] != s[k]
  }

  lemma {:induction false} NamesMembers(repos: seq<Corpus.Repo>, language: string, repo: string)
    ensures repo in Names(repos, language) <==>
      exists k :: 0 <= k < |repos| && repos[k].name == repo && repos[k].language == language
  {
    if repos != [] {
      NamesMembers(repos[1..], language, repo);
      if exists k :: 0 <= k < |repos| && repos[k].name == repo && repos[k].language == language {
        var k :| 0 <= k < |repos| && repos[k].name == repo && repos[k].language == language;
        if k > 0 {
          assert repos[1..][k - 1] == repos[k];
        }
      }
      if repo in Names(repos[1..], language) {
        var k :| 0 <= k < |repos[1..]| && repos[1..][k].name == repo && repos[1..][k].language == language;
        assert repos[k + 1] == repos[1..][k];
      }
    }
  }

  lemma {:induction false} HostsCountLanguage(m: Corpus.Manifest, languages: seq<string>, repo: string,
                                              language: string)
    requires NoRepeats(languages)
    requires forall other :: repo in Names(m.repos, other) <==> other == language
    ensures Hosts(languages, Runs(m, repo)) == if language in languages then 1 else 0
  {
    if languages != [] {
      HostsCountLanguage(m, languages[1..], repo, language);
    }
  }

  lemma ListedOnceHasOneHost(m: Corpus.Manifest, languages: seq<string>, repo: string)
    requires NoRepeats(languages) && ListedOnce(m, languages, repo)
    ensures Hosts(languages, Runs(m, repo)) == 1
  {
    var k :| 0 <= k < |m.repos| && m.repos[k].name == repo && m.repos[k].language in languages
      && forall j :: 0 <= j < |m.repos| && m.repos[j].name == repo ==> j == k;
    forall other ensures repo in Names(m.repos, other) <==> other == m.repos[k].language {
      NamesMembers(m.repos, other, repo);
    }
    HostsCountLanguage(m, languages, repo, m.repos[k].language);
  }

  ghost predicate AllListedOnce(m: Corpus.Manifest, languages: seq<string>, rows: seq<RepoReport>) {
    forall k :: 0 <= k < |rows| ==> ListedOnce(m, languages, rows[k].repo)
  }

  lemma {:induction false} WeightedOnce(i: Inputs, m: Corpus.Manifest, languages: seq<string>, side: Side,
                                        rows: seq<RepoReport>)
    requires forall k :: 0 <= k < |rows| ==> Hosts(languages, Runs(m, rows[k].repo)) == 1
    ensures SumRows(rows, Weight(i, m, languages, side)) == multiset(RowsFailures(i, side, rows))
  {
    if rows != [] {
      var (front, last) := (rows[..|rows| - 1], rows[|rows| - 1]);
      WeightedOnce(i, m, languages, side, front);
      assert last == rows[|rows| - 1] && Hosts(languages, Runs(m, last.repo)) == 1;
      TimesOne(multiset(RowFailures(i, side, last)));
    }
  }

  lemma TimesOne<T>(bag: multiset<T>)
    ensures Times(1, bag) == bag
  {
    assert Times(0, bag) == multiset{};
  }

  /** Sharding loses and repeats nothing: when every repo has one manifest
      entry, the failures of all legs are those of the whole gate, each as often. */
  lemma LegsFindTheSame(i: Inputs, m: Corpus.Manifest, languages: seq<string>, side: Side, rows: seq<RepoReport>)
    requires NoRepeats(languages) && AllListedOnce(m, languages, rows)
    ensures LegsFailures(i, m, languages, side, rows) == multiset(RowsFailures(i, side, rows))
  {
    LegsAddUp(i, m, languages, side, rows);
    forall k | 0 <= k < |rows| ensures Hosts(languages, Runs(m, rows[k].repo)) == 1 {
      ListedOnceHasOneHost(m, languages, rows[k].repo);
    }
    WeightedOnce(i, m, languages, side, rows);
  }

  // ---- The verdict.

  /** Some leg runs the repo. */
  ghost predicate Covered(m: Corpus.Manifest, languages: seq<string>, repo: string) {
    exists l :: 0 <= l < |languages| && repo in Names(m.repos, languages[l])
  }

  ghost predicate LegsPass(i: Inputs, m: Corpus.Manifest, languages: seq<string>) {
    forall l :: 0 <= l < |languages| ==> Failures(Leg(i, m, languages[l])) == []
  }

  ghost predicate RowsPass(i: Inputs, names: seq<string>, side: Side, rows: seq<RepoReport>) {
    forall k :: 0 <= k < |rows| && rows[k].repo in names ==> RowFailures(i, side, rows[k]) == []
  }

  lemma KeptRowsPass(i: Inputs, names: seq<string>, side: Side, rows: seq<RepoReport>)
    ensures RowsFailures(Narrowed(i, names), side, Kept(rows, RowIn(names))) == [] <==> RowsPass(i, names, side, rows)
  {
    var (leg, kept) := (Narrowed(i, names), Kept(rows, RowIn(names)));
    RowsPassExactly(leg, side, kept);
    forall k | 0 <= k < |rows| && rows[k].repo in names
      ensures rows[k] in kept && RowFailures(leg, side, rows[k]) == RowFailures(i, side, rows[k])
    {
      KeptMembers(rows, RowIn(names), rows[k]);
      LegJudgesAlike(i, names, side, rows[k]);
    }
    forall k | 0 <= k < |kept|
      ensures kept[k] in rows && kept[k].repo in names
      ensures RowFailures(leg, side, kept[k]) == RowFailures(i, side, kept[k])
    {
      KeptMembers(rows, RowIn(names), kept[k]);
      LegJudgesAlike(i, names, side, kept[k]);
    }
  }

  lemma LegPassesExactly(i: Inputs, m: Corpus.Manifest, language: string)
    ensures Failures(Leg(i, m, language)) == [] <==>
      && GlobalFailures(i) == []
      && RowsPass(i, Names(m.repos, language), InReport, i.report.repos)
      && RowsPass(i, Names(m.repos, language), InBaseline, i.baseline.repos)
  {
    var names := Names(m.repos, language);
    GlobalAlike(i, names);
    KeptRowsPass(i, names, InReport, i.report.repos);
    KeptRowsPass(i, names, InBaseline, i.baseline.repos);
  }

  ghost predicate CoveredRowsPass(i: Inputs, m: Corpus.Manifest, languages: seq<string>, side: Side,
                                  rows: seq<RepoReport>)
  {
    forall k :: 0 <= k < |rows| && Covered(m, languages, rows[k].repo) ==> RowFailures(i, side, rows[k]) == []
  }

  lemma CoveredRowsPassByLeg(i: Inputs, m: Corpus.Manifest, languages: seq<string>, side: Side, rows: seq<RepoReport>)
    ensures CoveredRowsPass(i, m, languages, side, rows) <==>
      forall l :: 0 <= l < |languages| ==> RowsPass(i, Names(m.repos, languages[l]), side, rows)
  {
  }

  /** All legs pass exactly when nothing global fails and every row that some leg
      runs passes: rows without a manifest entry are judged by no leg. */
  lemma LegsPassExactly(i: Inputs, m: Corpus.Manifest, languages: seq<string>)
    requires languages != []
    ensures LegsPass(i, m, languages) <==>
      && GlobalFailures(i) == []
      && CoveredRowsPass(i, m, languages, InReport, i.report.repos)
      && CoveredRowsPass(i, m, languages, InBaseline, i.baseline.repos)
  {
    CoveredRowsPassByLeg(i, m, languages, InReport, i.report.repos);
    CoveredRowsPassByLeg(i, m, languages, InBaseline, i.baseline.repos);
    forall l | 0 <= l < |languages|
      ensures Failures(Leg(i, m, languages[l])) == [] <==>
        && GlobalFailures(i) == []
        && RowsPass(i, Names(m.repos, languages[l]), InReport, i.report.repos)
        && RowsPass(i, Names(m.repos, languages[l]), InBaseline, i.baseline.repos)
    {
      LegPassesExactly(i, m, languages[l]);
    }
    assert languages[0] in languages;
    if LegsPass(i, m, languages) {
      assert Failures(Leg(i, m, languages[0])) == [];
    }
  }

  ghost predicate AllCovered(m: Corpus.Manifest, languages: seq<string>, rows: seq<RepoReport>) {
    forall k :: 0 <= k < |rows| ==> Covered(m, languages, rows[k].repo)
  }

  /** Every repo of the baseline is run by some leg or waived as a whole. */
  ghost predicate BaselineCovered(b: Baseline, m: Corpus.Manifest, languages: seq<string>) {
    forall k :: 0 <= k < |b.repos| ==> Covered(m, languages, b.repos[k].repo) || Waived(b, b.repos[k].repo, None)
  }

  /** The sharded verdict is the whole verdict, when every repo of the report is
      run by some leg, and every repo of the baseline is or is waived. */
  lemma ShardedVerdict(i: Inputs, m: Corpus.Manifest, languages: seq<string>)
    requires languages != []
    requires AllCovered(m, languages, i.report.repos) && BaselineCovered(i.baseline, m, languages)
    ensures LegsPass(i, m, languages) <==> Failures(i) == []
  {
    LegsPassExactly(i, m, languages);
    RestPasses(i, m, languages, InReport, i.report.repos);
    RestPasses(i, m, languages, InBaseline, i.baseline.repos);
  }

  lemma RestPasses(i: Inputs, m: Corpus.Manifest, languages: seq<string>, side: Side, rows: seq<RepoReport>)
    requires forall k :: 0 <= k < |rows| && !Covered(m, languages, rows[k].repo) ==> RowFailures(i, side, rows[k]) == []
    ensures CoveredRowsPass(i, m, languages, side, rows) <==> RowsFailures(i, side, rows) == []
  {
    RowsPassExactly(i, side, rows);
  }

  /** The other way round: a missing baseline repo that no leg runs fails the
      whole gate, and changes no leg's verdict. */
  lemma UnlistedRepoIsLost(i: Inputs, m: Corpus.Manifest, languages: seq<string>, base: RepoReport)
    requires languages != [] && base in i.baseline.repos
    requires !Covered(m, languages, base.repo)
    requires !Reported(i, base.repo) && !Waived(i.baseline, base.repo, None)
    requires GlobalFailures(i) == [] && CoveredRowsPass(i, m, languages, InReport, i.report.repos)
    requires CoveredRowsPass(i, m, languages, InBaseline, i.baseline.repos)
    ensures LegsPass(i, m, languages) && Failures(i) != []
  {
    LegsPassExactly(i, m, languages);
    RowsPassExactly(i, InBaseline, i.baseline.repos);
    var k :| 0 <= k < |i.baseline.repos| && i.baseline.repos[k] == base;
    assert RowFailures(i, InBaseline, i.baseline.repos[k]) != [];
  }

  // ---- The verdicts over all reports.

  /** A report row without a cell to judge. */
  function Bare(rows: seq<RepoReport>): (bare: seq<RepoReport>)
    ensures |bare| == |rows| && forall k :: 0 <= k < |rows| ==> bare[k] == RepoReport(rows[k].repo, Measured, [])
  {
    seq(|rows|, k requires 0 <= k < |rows| => RepoReport(rows[k].repo, Measured, []))
  }

  ghost function IsCovered(m: Corpus.Manifest, languages: seq<string>): RepoReport -> bool {
    (row: RepoReport) => Covered(m, languages, row.repo)
  }

  /** A report that measured each repo of the baseline that some leg runs. */
  ghost function CoveredReport(b: Baseline, m: Corpus.Manifest, languages: seq<string>): Report {
    Report(b.tasksVersion, Kept(Bare(b.repos), IsCovered(m, languages)))
  }

  lemma CoveredReportPasses(i: Inputs, m: Corpus.Manifest, languages: seq<string>)
    ensures var some := i.(report := CoveredReport(i.baseline, m, languages));
      && AllCovered(m, languages, some.report.repos)
      && CoveredRowsPass(some, m, languages, InReport, some.report.repos)
      && CoveredRowsPass(some, m, languages, InBaseline, some.baseline.repos)
  {
    var some := i.(report := CoveredReport(i.baseline, m, languages));
    var (bare, rows) := (Bare(i.baseline.repos), some.report.repos);
    forall k | 0 <= k < |rows|
      ensures Covered(m, languages, rows[k].repo) && RowFailures(some, InReport, rows[k]) == []
    {
      KeptMembers(bare, IsCovered(m, languages), rows[k]);
    }
    forall k | 0 <= k < |bare| && Covered(m, languages, bare[k].repo)
      ensures RowFailures(some, InBaseline, i.baseline.repos[k]) == []
    {
      KeptMembers(bare, IsCovered(m, languages), bare[k]);
      var j :| 0 <= j < |rows| && rows[j] == bare[k];
    }
  }

  lemma RemovedAnyReport(i: Inputs, report: Report)
    ensures RemovedFailures(i.(report := report), i.priorTaskIds) == RemovedFailures(i, i.priorTaskIds)
  {
    var (some, whole) := (RemovedFinder(i.(report := report)), RemovedFinder(i));
    forall id | id in i.priorTaskIds ensures some(id) == whole(id) {
    }
    EachSame(i.priorTaskIds, some, whole);
  }

  /** The verdicts agree on this report. */
  ghost predicate Agree(i: Inputs, m: Corpus.Manifest, languages: seq<string>, report: Report) {
    LegsPass(i.(report := report), m, languages) <==> Failures(i.(report := report)) == []
  }

  /** The two verdicts agree on every report of repos that legs run exactly when
      both fail on all of them, for a removed task, or when every repo of the
      baseline is run by some leg or waived. */
  lemma VerdictsAgreeExactly(i: Inputs, m: Corpus.Manifest, languages: seq<string>)
    requires languages != []
    ensures (forall report: Report :: AllCovered(m, languages, report.repos) ==> Agree(i, m, languages, report))
      <==> RemovedFailures(i, i.priorTaskIds) != [] || BaselineCovered(i.baseline, m, languages)
  {
    if RemovedFailures(i, i.priorTaskIds) != [] || BaselineCovered(i.baseline, m, languages) {
      forall report: Report | AllCovered(m, languages, report.repos) ensures Agree(i, m, languages, report) {
        RemovedAnyReport(i, report);
        if BaselineCovered(i.baseline, m, languages) {
          ShardedVerdict(i.(report := report), m, languages);
        } else {
          LegsPassExactly(i.(report := report), m, languages);
        }
      }
    } else {
      var k :| 0 <= k < |i.baseline.repos| && !Covered(m, languages, i.baseline.repos[k].repo)
        && !Waived(i.baseline, i.baseline.repos[k].repo, None);
      var report := CoveredReport(i.baseline, m, languages);
      CoveredReportPasses(i, m, languages);
      RemovedAnyReport(i, report);
      UnlistedRepoIsLost(i.(report := report), m, languages, i.baseline.repos[k]);
      assert !Agree(i, m, languages, report);
    }
  }
}
