/** Whole chains of runs, interrupted or not. */
module MigrationRuns {
  import opened Base
  import opened Storage
  import opened Migration

  /** What an old folder that is not done holds for a path. */
  function WholeAdds(olds: Olds, kind: Kind, dir: string, p: Path): Option<Item> {
    var entries := KindEntries(olds, kind, dir);
    if entries.None? || IsDone(entries.value) then None else Whole(DirNode(entries.value), p)
  }

  /** This run does not come to what the folder holds for the path. */
  predicate Misses(olds: Olds, kind: Kind, dirs: seq<string>, d: string, p: Path) {
    WholeAdds(olds, kind, d, p).Some? && (d !in dirs || Adds(olds, kind, d, p).None?)
  }

  /** No listing of the run drops an entry. */
  ghost predicate FullyListed(olds: Olds, kind: Kind, dirs: seq<string>) {
    && Enumerates(dirs, olds, kind)
    && (forall d, p :: Adds(olds, kind, d, p) == WholeAdds(olds, kind, d, p))
  }

  /** The same folders, listed in any other order at any level, other entries
      dropped. */
  ghost predicate Relisted(kind: Kind, a: State, b: State) {
    && a.nodes == b.nodes
    && (forall d :: IsOld(a.olds, kind, d) <==> IsOld(b.olds, kind, d))
    && (forall d, p :: WholeAdds(a.olds, kind, d, p) == WholeAdds(b.olds, kind, d, p))
  }

  datatype Leg = Leg(dirs: seq<string>, start: State, end: State, r: Result<(), Stop>)

  /** A run with some listing of the repo's folder. */
  ghost predicate IsRun(kind: Kind, leg: Leg) {
    && Sorted(leg.dirs)
    && (forall d :: d in leg.dirs ==> IsOld(leg.start.olds, kind, d))
    && Ran(kind, leg.dirs, leg.start, leg.end, leg.r)
  }

  /** Runs one after the other, whatever order each of them lists the folders in. */
  ghost predicate Chain(kind: Kind, legs: seq<Leg>) {
    && (forall k :: 0 <= k < |legs| ==> IsRun(kind, legs[k]))
    && (forall k :: 0 < k < |legs| ==> Relisted(kind, legs[k - 1].end, legs[k].start))
  }

  ghost predicate NothingDropped(kind: Kind, legs: seq<Leg>) {
    forall k :: 0 <= k < |legs| ==> FullyListed(legs[k].start.olds, kind, legs[k].dirs)
  }

  // ---- Runs that drop nothing.

  lemma OldStays(kind: Kind, leg: Leg, d: string)
    requires IsRun(kind, leg)
    ensures IsOld(leg.start.olds, kind, d) <==> IsOld(leg.end.olds, kind, d)
  {
    var (before, after) := (leg.start.olds, leg.end.olds);
    if !Same(before, after, d) {
      var stats :| after[d] == Marked(before, kind, d, stats)[d];
      MarkedIs(before, kind, d, stats, d);
    }
  }

  /** A folder still holds what it held, unless this run marked it. */
  lemma HoldsUnlessMarked(kind: Kind, leg: Leg, d: string, p: Path)
    requires IsRun(kind, leg)
    ensures
      || (WholeAdds(leg.end.olds, kind, d, p) == WholeAdds(leg.start.olds, kind, d, p)
          && Adds(leg.end.olds, kind, d, p) == Adds(leg.start.olds, kind, d, p))
      || (d in leg.dirs && WholeAdds(leg.end.olds, kind, d, p) == Adds(leg.end.olds, kind, d, p) == None)
  {
    var (before, after) := (leg.start.olds, leg.end.olds);
    if !Same(before, after, d) {
      var stats :| after[d] == Marked(before, kind, d, stats)[d];
      MarkedIs(before, kind, d, stats, d);
    }
  }

  lemma RelistedExpected(kind: Kind, before: Leg, next: Leg, p: Path)
    requires IsRun(kind, before) && Relisted(kind, before.end, next.start)
    requires FullyListed(before.start.olds, kind, before.dirs) && FullyListed(next.start.olds, kind, next.dirs)
    ensures Expected(before.end.nodes, before.end.olds, kind, before.dirs, p)
      == Expected(next.start.nodes, next.start.olds, kind, before.dirs, p)
  {
    forall d ensures Adds(before.end.olds, kind, d, p) == Adds(next.start.olds, kind, d, p) {
      HoldsUnlessMarked(kind, before, d, p);
      assert Adds(before.start.olds, kind, d, p) == WholeAdds(before.start.olds, kind, d, p);
      assert Adds(next.start.olds, kind, d, p) == WholeAdds(next.start.olds, kind, d, p);
    }
    SameHits(before.end.olds, next.start.olds, kind, before.dirs, p);
  }

  lemma NextDirs(kind: Kind, first: Leg, next: Leg)
    requires IsRun(kind, first) && Relisted(kind, first.end, next.start)
    requires Enumerates(first.dirs, first.start.olds, kind) && Enumerates(next.dirs, next.start.olds, kind)
    ensures first.dirs == next.dirs
  {
    forall d ensures d in first.dirs <==> d in next.dirs {
      OldStays(kind, first, d);
    }
    SortedOnce(first.dirs, next.dirs);
  }

  /** A chain that drops no entry keeps what is expected of the new folder at
      every path, and every file and folder it held. */
  lemma {:induction false} ChainKeepsExpected(kind: Kind, legs: seq<Leg>)
    requires legs != [] && Chain(kind, legs) && NothingDropped(kind, legs)
    ensures legs[|legs| - 1].dirs == legs[0].dirs
    ensures ExpectsSame(legs[0].start, legs[|legs| - 1].end, kind, legs[0].dirs)
    ensures Kept(legs[0].start.nodes, legs[|legs| - 1].end.nodes)
  {
    if |legs| > 1 {
      var n := |legs| - 1;
      var (first, last, before) := (legs[0], legs[n], legs[n - 1]);
      ChainKeepsExpected(kind, legs[..n]);
      assert legs[..n][n - 1] == before && legs[..n][0] == first;
      NextDirs(kind, before, last);
      forall p ensures Expected(last.end.nodes, last.end.olds, kind, first.dirs, p)
        == Expected(first.start.nodes, first.start.olds, kind, first.dirs, p)
      {
        RelistedExpected(kind, before, last, p);
      }
    }
  }

  lemma EndHolds(kind: Kind, dirs: seq<string>, start: State, end: State, p: Path)
    requires ExpectsSame(start, end, kind, dirs) && AllDone(end.olds, kind, dirs)
    ensures Get(end.nodes, p) == Expected(start.nodes, start.olds, kind, dirs, p)
  {
    DoneAddNothing(end.olds, kind, dirs, p);
  }

  lemma SameNodes(a: Nodes, b: Nodes)
    requires forall p :: Get(a, p) == Get(b, p)
    ensures a == b
  {
    forall p ensures p in a <==> p in b {
      assert Get(a, p) == Get(b, p);
    }
    forall p | p in a ensures a[p] == b[p] {
      assert Get(a, p) == Get(b, p);
    }
  }

  /** Any number of interrupted runs and then a completed one leave the same new
      folder as one uninterrupted run, whatever order anything is listed in, when
      no listing drops an entry. */
  lemma InterruptedRunsEqualOne(kind: Kind, legs: seq<Leg>, one: Leg)
    requires legs != [] && Chain(kind, legs) && NothingDropped(kind, legs + [one])
    requires legs[|legs| - 1].r.Ok? && IsRun(kind, one) && one.r.Ok? && Relisted(kind, legs[0].start, one.start)
    ensures legs[|legs| - 1].end.nodes == one.end.nodes
  {
    var (first, last) := (legs[0], legs[|legs| - 1]);
    assert forall k :: 0 <= k < |legs| ==> (legs + [one])[k] == legs[k];
    assert (legs + [one])[|legs|] == one;
    ChainKeepsExpected(kind, legs);
    SortedOnce(first.dirs, one.dirs);
    forall p ensures Get(last.end.nodes, p) == Get(one.end.nodes, p) {
      EndHolds(kind, first.dirs, first.start, last.end, p);
      EndHolds(kind, one.dirs, one.start, one.end, p);
      forall d ensures Adds(first.start.olds, kind, d, p) == Adds(one.start.olds, kind, d, p) {
        assert Adds(first.start.olds, kind, d, p) == WholeAdds(first.start.olds, kind, d, p);
        assert Adds(one.start.olds, kind, d, p) == WholeAdds(one.start.olds, kind, d, p);
      }
      SameHits(first.start.olds, one.start.olds, kind, first.dirs, p);
    }
    SameNodes(last.end.nodes, one.end.nodes);
  }

  // ---- Runs that drop entries.

  lemma AddsIsPart(olds: Olds, kind: Kind, d: string, p: Path)
    ensures Adds(olds, kind, d, p).None? || Adds(olds, kind, d, p) == WholeAdds(olds, kind, d, p)
  {
    var entries := KindEntries(olds, kind, d);
    if entries.Some? {
      CopiesWhatItReaches(DirNode(entries.value), p);
    }
  }

  lemma {:induction false} HitsFirst(olds: Olds, kind: Kind, dirs: seq<string>, p: Path)
    ensures Hits(olds, kind, dirs, p).Some? <==> exists d :: d in dirs && Adds(olds, kind, d, p).Some?
  {
    if dirs != [] {
      HitsFirst(olds, kind, dirs[1..], p);
      assert dirs == [dirs[0]] + dirs[1..];
    }
  }

  /** After a run that ends well, the new folder has every path that an old folder
      held exactly when each path it missed was there or came from elsewhere. */
  lemma NothingMissingExactly(kind: Kind, leg: Leg)
    requires IsRun(kind, leg) && leg.r.Ok?
    ensures var olds := leg.start.olds;
      (forall d, p :: IsOld(olds, kind, d) && WholeAdds(olds, kind, d, p).Some? ==> p in leg.end.nodes)
      <==> (forall d, p :: IsOld(olds, kind, d) && Misses(olds, kind, leg.dirs, d, p) ==>
              p in leg.start.nodes || Hits(olds, kind, leg.dirs, p).Some?)
  {
    var olds := leg.start.olds;
    forall d, p | IsOld(olds, kind, d) && WholeAdds(olds, kind, d, p).Some?
      ensures p in leg.end.nodes <==> p in leg.start.nodes || Hits(olds, kind, leg.dirs, p).Some?
      ensures Misses(olds, kind, leg.dirs, d, p) || Hits(olds, kind, leg.dirs, p).Some?
    {
      EndHolds(kind, leg.dirs, leg.start, leg.end, p);
      HitsFirst(olds, kind, leg.dirs, p);
    }
  }

  /** The new folder does not have the path, and no old folder will bring it. */
  ghost predicate Lost(state: State, kind: Kind, p: Path) {
    p !in state.nodes && forall d :: IsOld(state.olds, kind, d) ==> WholeAdds(state.olds, kind, d, p).None?
  }

  /** A run that ends well loses exactly what was not there, what no folder it
      came to listed, and what is in no folder it did not come to. */
  lemma LostExactly(kind: Kind, leg: Leg, p: Path)
    requires IsRun(kind, leg) && leg.r.Ok?
    ensures Lost(leg.end, kind, p) <==>
      && p !in leg.start.nodes
      && Hits(leg.start.olds, kind, leg.dirs, p).None?
      && forall d :: IsOld(leg.start.olds, kind, d) && d !in leg.dirs ==> WholeAdds(leg.start.olds, kind, d, p).None?
  {
    EndHolds(kind, leg.dirs, leg.start, leg.end, p);
    forall d ensures IsOld(leg.start.olds, kind, d) <==> IsOld(leg.end.olds, kind, d)
      ensures WholeAdds(leg.end.olds, kind, d, p)
        == if d in leg.dirs then None else WholeAdds(leg.start.olds, kind, d, p)
    {
      OldStays(kind, leg, d);
      HoldsUnlessMarked(kind, leg, d, p);
    }
  }

  /** No run brings back what is lost, whatever it lists or drops. */
  lemma {:induction false} LostStaysLost(kind: Kind, legs: seq<Leg>, p: Path)
    requires legs != [] && Chain(kind, legs) && Lost(legs[0].start, kind, p)
    ensures Lost(legs[|legs| - 1].end, kind, p)
  {
    var n := |legs| - 1;
    var leg := legs[n];
    if n > 0 {
      LostStaysLost(kind, legs[..n], p);
      assert legs[..n][n - 1] == legs[n - 1] && legs[..n][0] == legs[0];
    }
    assert Lost(leg.start, kind, p);
    forall d | d in leg.dirs ensures Adds(leg.start.olds, kind, d, p).None? {
      AddsIsPart(leg.start.olds, kind, d, p);
    }
    HitsFirst(leg.start.olds, kind, leg.dirs, p);
    assert Expected(leg.end.nodes, leg.end.olds, kind, leg.dirs, p).None?;
    forall d | IsOld(leg.end.olds, kind, d) ensures WholeAdds(leg.end.olds, kind, d, p).None? {
      OldStays(kind, leg, d);
      HoldsUnlessMarked(kind, leg, d, p);
    }
  }

  /** One folder with one file, which the listing comes to or drops. */
  function OneFile(name: string, contents: Contents, listed: bool): seq<Entry> {
    [Entry(name, FileNode(contents), listed)]
  }

  function WithFolder(kind: Kind, dir: string, entries: seq<Entry>): Olds {
    map[dir := Worktree(map[kind := DirNode(entries)])]
  }

  lemma OneFileIs(name: string, contents: Contents, listed: bool)
    requires name != MOVED_NOTE
    ensures Valid(OneFile(name, contents, listed)) && !IsDone(OneFile(name, contents, listed))
    ensures Whole(DirNode(OneFile(name, contents, listed)), [name]) == Some(FileItem(contents))
    ensures Look(DirNode(OneFile(name, contents, listed)), [name]) == if listed then Some(FileItem(contents)) else None
  {
    FindOne(OneFile(name, contents, listed)[0], name);
    FindOne(OneFile(name, contents, listed)[0], MOVED_NOTE);
    assert [name][1..] == [];
    assert Whole(FileNode(contents), []) == Look(FileNode(contents), []) == Some(FileItem(contents));
  }

  lemma OnlyFolder(kind: Kind, dir: string, entries: seq<Entry>, p: Path)
    requires Valid(entries) && !IsDone(entries)
    ensures KindEntries(WithFolder(kind, dir, entries), kind, dir) == Some(entries)
    ensures ValidOlds(WithFolder(kind, dir, entries), kind)
    ensures WorktreeDirs(WithFolder(kind, dir, entries), kind, [dir]) == if dir in RESERVED then [] else [dir]
    ensures NoneBlocked(map[], WithFolder(kind, dir, entries), kind, [dir])
    ensures Hits(WithFolder(kind, dir, entries), kind, [dir], p) == Look(DirNode(entries), p)
  {
    assert [dir][..0] == [] && [dir][1..] == [];
  }

  /** The names of the new folders, and of the settings beside them. */
  predicate IsNewName(dir: string) {
    dir == "plans" || dir == "implement" || dir == "worktrees" || dir == "handoff" || dir == ".config"
  }

  /** An unstopped run over one folder with one file. Only plans and implement
      folders are copied, and never a new folder. Then the folder is marked, and
      the file is in the new folder, or lost when its listing drops it. */
  method MigratesOneFile(kind: Kind, dir: string, name: string, contents: Contents, listed: bool)
    returns (start: State, end: State)
    requires name != MOVED_NOTE
    ensures start.nodes == map[] && start.olds == WithFolder(kind, dir, OneFile(name, contents, listed))
    ensures WholeAdds(start.olds, kind, dir, [name]) == Some(FileItem(contents))
    ensures (kind == Plans || kind == Implement) && !IsNewName(dir) ==>
      && IsRun(kind, Leg([dir], start, end, Ok(()))) && AllDone(end.olds, kind, [dir])
      && (listed ==> Get(end.nodes, [name]) == Some(FileItem(contents)))
      && (!listed ==> Lost(end, kind, [name]))
    ensures kind == Worktrees || kind == Handoff ==> end == start
    ensures IsNewName(dir) ==> end.nodes == start.nodes && end.olds == start.olds
  {
    var entries := OneFile(name, contents, listed);
    OneFileIs(name, contents, listed);
    OnlyFolder(kind, dir, entries, [name]);
    start := State(map[], WithFolder(kind, dir, entries));
    var target := new NewFolder(start.nodes);
    var repo := new RepoFolder(target, start.olds);
    var r := repo.Migrate(kind, [dir], Endless);
    end := State(target.nodes, repo.olds);
    DirsAre(start.olds, kind, [dir]);
    if (kind == Plans || kind == Implement) && dir !in RESERVED {
      EndHolds(kind, [dir], start, end, [name]);
      LostExactly(kind, Leg([dir], start, end, Ok(())), [name]);
    } else if dir in RESERVED {
      RunOverNothing(kind, start, end, r);
    }
  }

  lemma RunOverNothing(kind: Kind, start: State, end: State, r: Result<(), Stop>)
    requires end == start || Ran(kind, [], start, end, r)
    ensures end.nodes == start.nodes && end.olds == start.olds
  {
    if end != start {
      forall p ensures Get(start.nodes, p) == Get(end.nodes, p) {
        assert Expected(end.nodes, end.olds, kind, [], p) == Expected(start.nodes, start.olds, kind, [], p);
      }
      SameNodes(start.nodes, end.nodes);
      forall d ensures d in start.olds <==> d in end.olds {
        assert Same(start.olds, end.olds, d);
      }
      forall d | d in start.olds ensures start.olds[d] == end.olds[d] {
        assert Same(start.olds, end.olds, d);
      }
    }
  }

  /** Once all its folders are done a run changes nothing of the new folder: a
      file that was removed from it since never comes back. */
  lemma NothingComesBack(kind: Kind, leg: Leg)
    requires IsRun(kind, leg) && AllDone(leg.start.olds, kind, leg.dirs)
    ensures leg.end.nodes == leg.start.nodes
  {
    var (start, end) := (leg.start, leg.end);
    forall p ensures Get(start.nodes, p) == Get(end.nodes, p) {
      DoneAddNothing(start.olds, kind, leg.dirs, p);
      forall d | d in leg.dirs ensures Adds(start.olds, kind, d, p) == Adds(end.olds, kind, d, p) {
        HoldsUnlessMarked(kind, leg, d, p);
      }
      SameHits(start.olds, end.olds, kind, leg.dirs, p);
      assert Expected(end.nodes, end.olds, kind, leg.dirs, p) == Expected(start.nodes, start.olds, kind, leg.dirs, p);
    }
    SameNodes(start.nodes, end.nodes);
  }
}
