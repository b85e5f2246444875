/** The copy from every old worktree folder of a repo, once each
    (`migrate_worktree_dirs` in crates/cli/src/storage.rs). */
module Migration {
  import opened Base
  import opened Text
  import opened Storage

  /** An entry of the repo's folder: a file, or a folder with the entries that
      have a kind's name. */
  datatype Place = PlainFile | Worktree(folders: map<Kind, Node>)

  type Olds = map<string, Place>

  function KindEntries(olds: Olds, kind: Kind, dir: string): Option<seq<Entry>> {
    if dir in olds && olds[dir].Worktree? && kind in olds[dir].folders && olds[dir].folders[kind].DirNode?
    then Some(olds[dir].folders[kind].entries) else None
  }

  /** An old worktree folder: not one of the new ones, and it holds the kind. */
  predicate IsOld(olds: Olds, kind: Kind, dir: string) {
    dir !in RESERVED && KindEntries(olds, kind, dir).Some?
  }

  predicate IsDone(entries: seq<Entry>) {
    Find(entries, MOVED_NOTE).Some?
  }

  function Placed(sorted: seq<string>, name: string): seq<string> {
    if sorted == [] then [name]
    else if LexLess(name, sorted[0]) then [name] + sorted
    else [sorted[0]] + Placed(sorted[1..], name)
  }

  /** The old folders, sorted, from any listing of the repo's folder. */
  function WorktreeDirs(olds: Olds, kind: Kind, listing: seq<string>): seq<string> {
    if listing == [] then []
    else
      var (dirs, last) := (WorktreeDirs(olds, kind, listing[..|listing| - 1]), listing[|listing| - 1]);
      if IsOld(olds, kind, last) then Placed(dirs, last) else dirs
  }

  function Marked(olds: Olds, kind: Kind, dir: string, stats: Copied): Olds
    requires KindEntries(olds, kind, dir).Some?
  {
    var entries := KindEntries(olds, kind, dir).value + [Entry(MOVED_NOTE, FileNode(Note(stats)), true)];
    olds[dir := Worktree(olds[dir].folders[kind := DirNode(entries)])]
  }

  // ---- The sorted list of old folders is the same for every listing.

  ghost predicate Sorted(names: seq<string>) {
    names == [] || ((forall n :: n in names[1..] ==> LexLess(names[0], n)) && Sorted(names[1..]))
  }

  /** Some of the entries of the repo's folder, each once: a listing drops what it
      cannot read. */
  ghost predicate Draws(listing: seq<string>, olds: Olds) {
    && (forall n :: n in listing ==> n in olds)
    && (forall j, k :: 0 <= j < k < |listing| ==> listing[j] != listing[k])
  }

  ghost predicate Lists(listing: seq<string>, olds: Olds) {
    Draws(listing, olds) && forall n :: n in olds ==> n in listing
  }

  ghost predicate Enumerates(dirs: seq<string>, olds: Olds, kind: Kind) {
    Sorted(dirs) && forall d :: d in dirs <==> IsOld(olds, kind, d)
  }

  lemma {:induction false} PlacedKeepsOrder(sorted: seq<string>, name: string)
    requires Sorted(sorted) && name !in sorted
    ensures Sorted(Placed(sorted, name))
    ensures forall n :: n in Placed(sorted, name) <==> n in sorted || n == name
  {
    if sorted == [] {
      assert [name][1..] == [];
    } else {
      var (first, rest) := (sorted[0], sorted[1..]);
      assert sorted == [first] + rest;
      LexFlip(name, first);
      if LexLess(name, first) {
        forall n | n in sorted ensures LexLess(name, n) {
          if n in rest {
            LexTransitive(name, first, n);
          }
        }
        assert ([name] + sorted)[1..] == sorted;
      } else {
        PlacedKeepsOrder(rest, name);
        assert ([first] + Placed(rest, name))[1..] == Placed(rest, name);
      }
    }
  }

  lemma {:induction false} DirsAre(olds: Olds, kind: Kind, listing: seq<string>)
    requires forall j, k :: 0 <= j < k < |listing| ==> listing[j] != listing[k]
    ensures Sorted(WorktreeDirs(olds, kind, listing))
    ensures forall d :: d in WorktreeDirs(olds, kind, listing) <==> d in listing && IsOld(olds, kind, d)
  {
    if listing != [] {
      var (front, last) := (listing[..|listing| - 1], listing[|listing| - 1]);
      assert listing == front + [last];
      DirsAre(olds, kind, front);
      if IsOld(olds, kind, last) {
        PlacedKeepsOrder(WorktreeDirs(olds, kind, front), last);
      }
    }
  }

  lemma HasMember(a: seq<string>)
    ensures a != [] ==> exists n :: n in a
  {
    if a != [] {
      assert a[0] in a;
    }
  }

  lemma {:induction false} SortedOnce(a: seq<string>, b: seq<string>)
    requires Sorted(a) && Sorted(b) && forall n :: n in a <==> n in b
    ensures a == b
  {
    if a != [] && b != [] {
      assert a[0] in a && b[0] in b;
      assert a == [a[0]] + a[1..] && b == [b[0]] + b[1..];
      LexFlip(a[0], b[0]);
      LexFlip(a[0], a[0]);
      forall n ensures n in a[1..] <==> n in b[1..] {
        assert n in a <==> n in b;
      }
      SortedOnce(a[1..], b[1..]);
    } else {
      HasMember(a);
      HasMember(b);
    }
  }

  /** Whatever order the repo's folder is listed in, the same folders are copied
      in the same order. */
  lemma ListingDoesNotMatter(olds: Olds, kind: Kind, listing: seq<string>, dirs: seq<string>)
    requires Lists(listing, olds)
    ensures Enumerates(WorktreeDirs(olds, kind, listing), olds, kind)
    ensures Enumerates(dirs, olds, kind) ==> dirs == WorktreeDirs(olds, kind, listing)
  {
    DirsAre(olds, kind, listing);
    if Enumerates(dirs, olds, kind) {
      SortedOnce(dirs, WorktreeDirs(olds, kind, listing));
    }
  }

  lemma {:induction false} SortedIsDistinct(names: seq<string>, j: nat, k: nat)
    requires Sorted(names) && j < k < |names|
    ensures names[j] != names[k]
  {
    if j == 0 {
      assert names[k] == names[1..][k - 1] && names[k] in names[1..];
      LexFlip(names[0], names[0]);
    } else {
      SortedIsDistinct(names[1..], j - 1, k - 1);
    }
  }

  // ---- What the new folder will hold.

  /** What an old folder still has to add at a path. */
  function Adds(olds: Olds, kind: Kind, dir: string, p: Path): Option<Item> {
    var entries := KindEntries(olds, kind, dir);
    if entries.None? || IsDone(entries.value) then None else Look(DirNode(entries.value), p)
  }

  function Adding(olds: Olds, kind: Kind, dir: string): Path -> Option<Item> {
    (p: Path) => Adds(olds, kind, dir, p)
  }

  /** The first of the folders that has something for the path. */
  function Hits(olds: Olds, kind: Kind, dirs: seq<string>, p: Path): Option<Item> {
    if dirs == [] then None else Over(Adds(olds, kind, dirs[0], p), Hits(olds, kind, dirs[1..], p))
  }

  /** What a path of the new folder holds, or will hold once all are copied. */
  function Expected(nodes: Nodes, olds: Olds, kind: Kind, dirs: seq<string>, p: Path): Option<Item> {
    Over(Get(nodes, p), Hits(olds, kind, dirs, p))
  }

  predicate AllDone(olds: Olds, kind: Kind, dirs: seq<string>) {
    forall d :: d in dirs ==> KindEntries(olds, kind, d).Some? && IsDone(KindEntries(olds, kind, d).value)
  }

  /** A folder to copy has the name of a file that is there before its turn. */
  ghost predicate BlockedAt(nodes: Nodes, olds: Olds, kind: Kind, dirs: seq<string>, j: nat, p: Path) {
    && j < |dirs|
    && Adds(olds, kind, dirs[j], p) == Some(FolderItem)
    && IsFile(Expected(nodes, olds, kind, dirs[..j], p))
  }

  ghost predicate NoneBlocked(nodes: Nodes, olds: Olds, kind: Kind, dirs: seq<string>) {
    forall j: nat, p :: !BlockedAt(nodes, olds, kind, dirs, j, p)
  }

  lemma {:induction false} HitsSplit(olds: Olds, kind: Kind, a: seq<string>, b: seq<string>, p: Path)
    ensures Hits(olds, kind, a + b, p) == Over(Hits(olds, kind, a, p), Hits(olds, kind, b, p))
  {
    if a == [] {
      assert a + b == b;
    } else {
      HitsSplit(olds, kind, a[1..], b, p);
      assert (a + b)[1..] == a[1..] + b;
    }
  }

  lemma {:induction false} DoneAddNothing(olds: Olds, kind: Kind, dirs: seq<string>, p: Path)
    requires AllDone(olds, kind, dirs)
    ensures Hits(olds, kind, dirs, p).None?
  {
    if dirs != [] {
      DoneAddNothing(olds, kind, dirs[1..], p);
    }
  }

  lemma {:induction false} SameHits(olds: Olds, after: Olds, kind: Kind, dirs: seq<string>, p: Path)
    requires forall d :: d in dirs ==> Adds(olds, kind, d, p) == Adds(after, kind, d, p)
    ensures Hits(olds, kind, dirs, p) == Hits(after, kind, dirs, p)
  {
    if dirs != [] {
      assert dirs[0] in dirs;
      SameHits(olds, after, kind, dirs[1..], p);
    }
  }

  /** With the folders before one done, that one comes first. */
  lemma HitsFrom(olds: Olds, kind: Kind, front: seq<string>, dir: string, rest: seq<string>, p: Path)
    requires AllDone(olds, kind, front)
    ensures Hits(olds, kind, front + [dir] + rest, p) == Over(Adds(olds, kind, dir, p), Hits(olds, kind, rest, p))
  {
    DoneAddNothing(olds, kind, front, p);
    HitsSplit(olds, kind, front + [dir], rest, p);
    HitsSplit(olds, kind, front, [dir], p);
    assert [dir][1..] == [];
  }

  /** A part of the copy of one folder changes nothing of what is expected. */
  lemma PartKeepsExpected(before: Nodes, after: Nodes, olds: Olds, kind: Kind,
                          front: seq<string>, dir: string, rest: seq<string>, p: Path)
    requires AllDone(olds, kind, front)
    requires Between(before, after, Adding(olds, kind, dir))
    ensures Expected(after, olds, kind, front + [dir] + rest, p)
      == Expected(before, olds, kind, front + [dir] + rest, p)
  {
    HitsFrom(olds, kind, front, dir, rest, p);
    assert Get(after, p) == Get(before, p) || Get(after, p) == Over(Get(before, p), Adding(olds, kind, dir)(p));
  }

  // ---- A run.

  datatype State = State(nodes: Nodes, olds: Olds)

  ghost predicate ValidOlds(olds: Olds, kind: Kind) {
    forall d :: KindEntries(olds, kind, d).Some? ==> Valid(KindEntries(olds, kind, d).value)
  }

  /** Nothing of the new folder was overwritten or removed. */
  ghost predicate Kept(before: Nodes, after: Nodes) {
    forall p :: p in before ==> p in after && after[p] == before[p]
  }

  /** Nothing of an old folder was changed, but for the note one of `dirs` may
      have got. */
  ghost predicate NotesOnly(before: Olds, after: Olds, kind: Kind, dirs: seq<string>) {
    forall d ::
      || Same(before, after, d)
      || (d in dirs && IsOld(before, kind, d) && d in after
          && exists stats :: after[d] == Marked(before, kind, d, stats)[d])
  }

  ghost predicate Same(before: Olds, after: Olds, dir: string) {
    if dir in before then dir in after && after[dir] == before[dir] else dir !in after
  }

  /** The same is expected at every path. */
  ghost predicate ExpectsSame(before: State, after: State, kind: Kind, dirs: seq<string>) {
    forall p :: Expected(after.nodes, after.olds, kind, dirs, p) == Expected(before.nodes, before.olds, kind, dirs, p)
  }

  /** What any run does, interrupted or not: what is expected of the new folder
      stays, and a run that ends well has copied it all. */
  ghost predicate Ran(kind: Kind, dirs: seq<string>, before: State, after: State, r: Result<(), Stop>) {
    && ExpectsSame(before, after, kind, dirs)
    && Kept(before.nodes, after.nodes)
    && NotesOnly(before.olds, after.olds, kind, dirs)
    && (r.Ok? ==> AllDone(after.olds, kind, dirs) && NoneBlocked(before.nodes, before.olds, kind, dirs))
    && (r.Err? && r.error.NameTaken? ==> !NoneBlocked(before.nodes, before.olds, kind, dirs))
  }

  /** A run between two of its folders: the new folder holds what the folders
      before had to add, and those are done; the others are as they were. */
  ghost predicate Progress(start: State, now: State, kind: Kind, dirs: seq<string>, i: nat) {
    && i <= |dirs|
    && Holds(start, now.nodes, kind, dirs[..i])
    && MarksAt(start.olds, now.olds, kind, dirs, i)
    && (forall j: nat, p :: j < i ==> !BlockedAt(start.nodes, start.olds, kind, dirs, j, p))
  }

  ghost predicate Holds(start: State, nodes: Nodes, kind: Kind, dirs: seq<string>) {
    forall p :: Get(nodes, p) == Expected(start.nodes, start.olds, kind, dirs, p)
  }

  lemma MarkedIs(olds: Olds, kind: Kind, dir: string, stats: Copied, d: string)
    requires KindEntries(olds, kind, dir).Some?
    ensures d != dir ==> KindEntries(Marked(olds, kind, dir, stats), kind, d) == KindEntries(olds, kind, d)
    ensures KindEntries(Marked(olds, kind, dir, stats), kind, dir)
      == Some(KindEntries(olds, kind, dir).value + [Entry(MOVED_NOTE, FileNode(Note(stats)), true)])
    ensures IsDone(KindEntries(Marked(olds, kind, dir, stats), kind, dir).value)
  {
    var (entries, note) := (KindEntries(olds, kind, dir).value, Entry(MOVED_NOTE, FileNode(Note(stats)), true));
    FindParts(entries, [note], MOVED_NOTE);
  }

  lemma TakeNext(dirs: seq<string>, i: nat, j: nat)
    requires i < j <= |dirs|
    ensures dirs[..j] == dirs[..i] + [dirs[i]] + dirs[i + 1..j]
  {
  }

  lemma MarkedDone(olds: Olds, kind: Kind, front: seq<string>, dir: string, stats: Copied)
    requires AllDone(olds, kind, front) && KindEntries(olds, kind, dir).Some?
    ensures AllDone(Marked(olds, kind, dir, stats), kind, front + [dir])
  {
    forall d | d in front + [dir]
      ensures KindEntries(Marked(olds, kind, dir, stats), kind, d).Some?
           && IsDone(KindEntries(Marked(olds, kind, dir, stats), kind, d).value)
    {
      MarkedIs(olds, kind, dir, stats, d);
    }
  }

  lemma SameAdds(start: Olds, now: Olds, kind: Kind, dir: string, p: Path)
    requires Same(start, now, dir)
    ensures KindEntries(start, kind, dir) == KindEntries(now, kind, dir)
    ensures Adds(start, kind, dir, p) == Adds(now, kind, dir, p)
  {
  }

  lemma HoldsMore(start: State, nodes: Nodes, after: Nodes, kind: Kind, front: seq<string>, dir: string)
    requires Holds(start, nodes, kind, front) && Merges(nodes, after, Adding(start.olds, kind, dir))
    ensures Holds(start, after, kind, front + [dir])
  {
    forall p ensures Get(after, p) == Expected(start.nodes, start.olds, kind, front + [dir], p) {
      HitsSplit(start.olds, kind, front, [dir], p);
      assert [dir][1..] == [];
      assert Get(after, p) == Over(Get(nodes, p), Adding(start.olds, kind, dir)(p));
    }
  }

  /** What is expected of the new folder does not change between two folders. */
  lemma ProgressKeepsExpected(start: State, now: State, kind: Kind, dirs: seq<string>, i: nat, p: Path)
    requires Progress(start, now, kind, dirs, i)
    ensures Expected(now.nodes, now.olds, kind, dirs, p) == Expected(start.nodes, start.olds, kind, dirs, p)
  {
    assert dirs == dirs[..i] + dirs[i..];
    HitsSplit(start.olds, kind, dirs[..i], dirs[i..], p);
    HitsSplit(now.olds, kind, dirs[..i], dirs[i..], p);
    DoneAddNothing(now.olds, kind, dirs[..i], p);
    forall d | d in dirs[i..] ensures Adds(start.olds, kind, d, p) == Adds(now.olds, kind, d, p) {
      var k :| i <= k < |dirs| && dirs[k] == d;
      SameAdds(start.olds, now.olds, kind, d, p);
    }
    SameHits(start.olds, now.olds, kind, dirs[i..], p);
  }

  lemma MarkKeepsNotes(start: Olds, now: Olds, kind: Kind, dirs: seq<string>, i: nat, stats: Copied)
    requires i < |dirs| && Sorted(dirs) && NotesOnly(start, now, kind, dirs) && IsOld(now, kind, dirs[i])
    requires forall k :: i <= k < |dirs| ==> Same(start, now, dirs[k])
    ensures var later := Marked(now, kind, dirs[i], stats);
      NotesOnly(start, later, kind, dirs) && forall k :: i < k < |dirs| ==> Same(start, later, dirs[k])
  {
    var later := Marked(now, kind, dirs[i], stats);
    assert Same(start, now, dirs[i]);
    assert later[dirs[i]] == Marked(start, kind, dirs[i], stats)[dirs[i]];
    forall k | i < k < |dirs| ensures Same(start, later, dirs[k]) {
      SortedIsDistinct(dirs, i, k);
      assert Same(start, now, dirs[k]);
    }
    forall d ensures
      || Same(start, later, d)
      || (d in dirs && IsOld(start, kind, d) && d in later && exists s :: later[d] == Marked(start, kind, d, s)[d])
    {
      if d != dirs[i] && !Same(start, later, d) {
        assert !Same(start, now, d);
        var s :| now[d] == Marked(start, kind, d, s)[d];
        assert later[d] == now[d];
      }
    }
  }

  lemma NotBlockedHere(start: State, nodes: Nodes, kind: Kind, dirs: seq<string>, i: nat)
    requires i < |dirs| && Holds(start, nodes, kind, dirs[..i]) && !Blocked(nodes, Adding(start.olds, kind, dirs[i]))
    ensures forall p :: !BlockedAt(start.nodes, start.olds, kind, dirs, i, p)
  {
    forall p ensures !BlockedAt(start.nodes, start.olds, kind, dirs, i, p) {
      assert Adding(start.olds, kind, dirs[i])(p) == Adds(start.olds, kind, dirs[i], p);
    }
  }

  /** The marks after a folder was copied. */
  ghost predicate MarksAt(start: Olds, now: Olds, kind: Kind, dirs: seq<string>, i: nat)
    requires i <= |dirs|
  {
    && AllDone(now, kind, dirs[..i])
    && (forall k :: i <= k < |dirs| ==> Same(start, now, dirs[k]))
    && NotesOnly(start, now, kind, dirs)
  }

  lemma MarksNext(start: Olds, later: Olds, kind: Kind, dirs: seq<string>, i: nat)
    requires i < |dirs| && AllDone(later, kind, dirs[..i] + [dirs[i]]) && NotesOnly(start, later, kind, dirs)
    requires forall k :: i < k < |dirs| ==> Same(start, later, dirs[k])
    ensures MarksAt(start, later, kind, dirs, i + 1)
  {
    assert dirs[..i + 1] == dirs[..i] + [dirs[i]];
  }

  /** A folder was copied and marked. */
  lemma CopiedNext(start: State, now: State, later: State, kind: Kind, dirs: seq<string>, i: nat)
    requires i < |dirs| && Progress(start, now, kind, dirs, i) && MarksAt(start.olds, later.olds, kind, dirs, i + 1)
    requires Merges(now.nodes, later.nodes, Adding(start.olds, kind, dirs[i]))
    requires !Blocked(now.nodes, Adding(start.olds, kind, dirs[i]))
    ensures Progress(start, later, kind, dirs, i + 1)
  {
    assert dirs[..i + 1] == dirs[..i] + [dirs[i]];
    HoldsMore(start, now.nodes, later.nodes, kind, dirs[..i], dirs[i]);
    NotBlockedHere(start, now.nodes, kind, dirs, i);
  }

  /** A folder that is done is passed over. */
  lemma Skipped(start: State, now: State, kind: Kind, dirs: seq<string>, i: nat)
    requires i < |dirs| && Progress(start, now, kind, dirs, i) && AllDone(now.olds, kind, [dirs[i]])
    ensures Progress(start, now, kind, dirs, i + 1)
  {
    assert dirs[..i + 1] == dirs[..i] + [dirs[i]];
    assert dirs[i] in [dirs[i]];
    forall p ensures Adding(start.olds, kind, dirs[i])(p).None? {
      SameAdds(start.olds, now.olds, kind, dirs[i], p);
    }
    HoldsMore(start, now.nodes, now.nodes, kind, dirs[..i], dirs[i]);
    NotBlockedHere(start, now.nodes, kind, dirs, i);
  }

  lemma MergesKeep(start: State, before: Nodes, after: Nodes, kind: Kind, dirs: seq<string>, want: Path -> Option<Item>)
    requires Holds(start, before, kind, dirs) && Between(before, after, want)
    ensures Kept(start.nodes, after)
  {
    forall p | p in start.nodes ensures p in after && after[p] == start.nodes[p] {
      assert Get(before, p) == Some(start.nodes[p]);
      assert Get(after, p) == Get(before, p) || Get(after, p) == Over(Get(before, p), want(p));
    }
  }

  /** A run that stops while it copies a folder. */
  lemma StopsIn(start: State, now: State, nodes: Nodes, kind: Kind, dirs: seq<string>, i: nat, fuel: Fuel, r: Ending)
    requires i < |dirs| && Progress(start, now, kind, dirs, i)
    requires r.Err? && Ends(now.nodes, nodes, Adding(start.olds, kind, dirs[i]), fuel, r)
    ensures Ran(kind, dirs, start, State(nodes, now.olds), Err(r.error))
  {
    assert dirs[..|dirs|] == dirs;
    TakeNext(dirs, i, |dirs|);
    forall p ensures Adding(start.olds, kind, dirs[i])(p) == Adding(now.olds, kind, dirs[i])(p) {
      SameAdds(start.olds, now.olds, kind, dirs[i], p);
    }
    forall p ensures Expected(nodes, now.olds, kind, dirs, p) == Expected(start.nodes, start.olds, kind, dirs, p) {
      ProgressKeepsExpected(start, now, kind, dirs, i, p);
      PartKeepsExpected(now.nodes, nodes, now.olds, kind, dirs[..i], dirs[i], dirs[i + 1..|dirs|], p);
    }
    MergesKeep(start, now.nodes, nodes, kind, dirs[..i], Adding(start.olds, kind, dirs[i]));
    if r.error.NameTaken? {
      assert BlockedAt(start.nodes, start.olds, kind, dirs, i, r.error.path);
    }
  }

  /** A run that stops after a copy, before its note. */
  lemma StopsAfter(start: State, now: State, nodes: Nodes, kind: Kind, dirs: seq<string>, i: nat)
    requires i < |dirs| && Progress(start, now, kind, dirs, i)
    requires Merges(now.nodes, nodes, Adding(start.olds, kind, dirs[i]))
    ensures Ran(kind, dirs, start, State(nodes, now.olds), Err(Stopped))
  {
    StopsIn(start, now, nodes, kind, dirs, i, Steps(0), Err(Stopped));
  }

  lemma RunEnds(start: State, now: State, kind: Kind, dirs: seq<string>)
    requires Progress(start, now, kind, dirs, |dirs|)
    ensures Ran(kind, dirs, start, now, Ok(()))
  {
    assert dirs[..|dirs|] == dirs;
    forall p ensures Expected(now.nodes, now.olds, kind, dirs, p) == Expected(start.nodes, start.olds, kind, dirs, p) {
      ProgressKeepsExpected(start, now, kind, dirs, |dirs|, p);
    }
    MergesKeep(start, now.nodes, now.nodes, kind, dirs, (p: Path) => None);
  }

  lemma StartsAt(start: State, kind: Kind, dirs: seq<string>)
    ensures Progress(start, start, kind, dirs, 0)
  {
  }

  class RepoFolder {
    const target: NewFolder
    var olds: Olds

    constructor (target: NewFolder, olds: Olds)
      ensures this.target == target && this.olds == olds
    {
      this.target := target;
      this.olds := olds;
    }

    ghost function Now(): State
      reads this, target
    {
      State(target.nodes, olds)
    }

    /** Copies every old folder of this kind into the new one, once per folder. */
    method Migrate(kind: Kind, listing: seq<string>, fuel: Fuel) returns (r: Result<(), Stop>)
      requires Draws(listing, olds) && ValidOlds(olds, kind)
      modifies this, target
      ensures kind == Worktrees || kind == Handoff ==> r.Ok? && Now() == old(Now())
      ensures kind == Plans || kind == Implement ==>
        Ran(kind, WorktreeDirs(old(olds), kind, listing), old(Now()), Now(), r)
      ensures fuel == Endless ==> r != Err(Stopped)
    {
      if !kind.CopiesFromWorktreeDirs() {
        return Ok(());
      }
      ghost var start := Now();
      var dirs := WorktreeDirs(olds, kind, listing);
      DirsAre(olds, kind, listing);
      StartsAt(start, kind, dirs);
      var rest := fuel;
      for i := 0 to |dirs|
        invariant Progress(start, Now(), kind, dirs, i)
        invariant rest.Steps? == fuel.Steps?
      {
        ghost var now := Now();
        assert Same(start.olds, olds, dirs[i]) && dirs[i] in dirs;
        assert KindEntries(olds, kind, dirs[i]) == KindEntries(start.olds, kind, dirs[i]);
        var entries := KindEntries(olds, kind, dirs[i]).value;
        if IsDone(entries) {
          Skipped(start, now, kind, dirs, i);
          continue;
        }
        var copied;
        ghost var had := rest;
        copied, rest := target.CopyFolder(entries, [], rest);
        AsAdding(start.olds, kind, dirs[i], now.nodes, target.nodes, had, copied);
        if copied.Err? {
          StopsIn(start, now, target.nodes, kind, dirs, i, had, copied);
          return Err(copied.error);
        }
        if rest == Steps(0) {
          StopsAfter(start, now, target.nodes, kind, dirs, i);
          return Err(Stopped);
        }
        rest := rest.Spend();
        MarkedDone(olds, kind, dirs[..i], dirs[i], copied.value);
        MarkKeepsNotes(start.olds, olds, kind, dirs, i, copied.value);
        olds := Marked(olds, kind, dirs[i], copied.value);
        MarksNext(start.olds, olds, kind, dirs, i);
        CopiedNext(start, now, Now(), kind, dirs, i);
      }
      RunEnds(start, Now(), kind, dirs);
      r := Ok(());
    }
  }

  lemma AsAdding(olds: Olds, kind: Kind, dir: string, before: Nodes, after: Nodes, fuel: Fuel, r: Ending)
    requires KindEntries(olds, kind, dir).Some? && !IsDone(KindEntries(olds, kind, dir).value)
    requires Ends(before, after, Wanted(DirNode(KindEntries(olds, kind, dir).value), []), fuel, r)
    ensures Ends(before, after, Adding(olds, kind, dir), fuel, r)
  {
    var entries := KindEntries(olds, kind, dir).value;
    forall p ensures Wanted(DirNode(entries), [])(p) == Adding(olds, kind, dir)(p) {
      assert p[0..] == p && p[..0] == [];
    }
    SameWant(before, after, Wanted(DirNode(entries), []), Adding(olds, kind, dir), fuel, r);
  }
}
