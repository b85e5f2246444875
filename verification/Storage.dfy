/** The copy of old worktree folders into a repo's new folder
    (crates/cli/src/storage.rs). A run can stop before any folder or file it
    makes: the steps it may take are an input. It can also fail to list an entry:
    such an entry is passed over and the run goes on. */
module Storage {
  import opened Base
  import opened Folds

  const MOVED_NOTE := "MOVED.txt"

  /** The folders `plans`, `implement`, `worktrees` and `handoff`. */
  datatype Kind = Plans | Implement | Worktrees | Handoff {
    predicate CopiesFromWorktreeDirs() {
      Plans? || Implement?
    }
  }

  const RESERVED := {"plans", "implement", "worktrees", "handoff", ".config"}

  type Path = seq<string>

  datatype Copied = Copied(copied: nat, clashed: seq<Path>, skipped: nat) {
    function Plus(more: Copied): Copied {
      Copied(copied + more.copied, clashed + more.clashed, skipped + more.skipped)
    }
  }

  const NOTHING := Copied(0, [], 0)

  /** A file's bytes, or the note that marks a copy as done. */
  datatype Contents = Bytes(bytes: seq<bv8>) | Note(stats: Copied)

  /** An old folder, in the order it is listed. A link or a special file is
      `Special`. */
  datatype Node = FileNode(contents: Contents) | DirNode(entries: seq<Entry>) | Special

  /** `listed` is whether this run's listing of the folder comes to the entry. */
  datatype Entry = Entry(name: string, node: Node, listed: bool) {
    predicate Copies() {
      name != MOVED_NOTE && listed
    }
  }

  /** What the new folder has at a path; the empty path is the folder itself. */
  datatype Item = FolderItem | FileItem(contents: Contents)

  type Nodes = map<Path, Item>

  function Get(nodes: Nodes, path: Path): Option<Item> {
    if path in nodes then Some(nodes[path]) else None
  }

  predicate IsFile(item: Option<Item>) {
    item.Some? && item.value.FileItem?
  }

  function Over(first: Option<Item>, second: Option<Item>): Option<Item> {
    if first.Some? then first else second
  }

  /** The entry of a name on the disk, listed or not. */
  function Find(entries: seq<Entry>, name: string): Option<Entry> {
    if entries == [] then None else if entries[0].name == name then Some(entries[0]) else Find(entries[1..], name)
  }

  /** A file system lists a name once. */
  ghost predicate Valid(entries: seq<Entry>)
    decreases entries
  {
    entries == [] ||
    (Find(entries[1..], entries[0].name).None?
     && (entries[0].node.DirNode? ==> Valid(entries[0].node.entries))
     && Valid(entries[1..]))
  }

  /** What a copy puts in place of the node itself. */
  function Itself(node: Node): Option<Item> {
    match node
    case FileNode(contents) => Some(FileItem(contents))
    case DirNode(_) => Some(FolderItem)
    case Special => None
  }

  /** What a copy of the node puts at a path below it: notes and entries that are
      not listed are never copied. */
  function Look(node: Node, path: Path): Option<Item>
    decreases |path|
  {
    if path == [] then Itself(node)
    else if node.DirNode? && Find(node.entries, path[0]).Some? && Find(node.entries, path[0]).value.Copies() then
      Look(Find(node.entries, path[0]).value.node, path[1..])
    else None
  }

  /** What the copy is for: the same, were every entry listed. */
  function Whole(node: Node, path: Path): Option<Item>
    decreases |path|
  {
    if path == [] then Itself(node)
    else if node.DirNode? && path[0] != MOVED_NOTE && Find(node.entries, path[0]).Some? then
      Whole(Find(node.entries, path[0]).value.node, path[1..])
    else None
  }

  /** Every entry on the way to a path is listed. */
  predicate Reached(node: Node, path: Path)
    decreases |path|
  {
    path == [] ||
    (node.DirNode? && Find(node.entries, path[0]).Some? && Find(node.entries, path[0]).value.listed
     && Reached(Find(node.entries, path[0]).value.node, path[1..]))
  }

  lemma {:induction false} FindsTheName(entries: seq<Entry>, name: string)
    ensures Find(entries, name).Some? ==> Find(entries, name).value.name == name
  {
    if entries != [] && entries[0].name != name {
      FindsTheName(entries[1..], name);
    }
  }

  /** A copy puts exactly what it reaches. */
  lemma {:induction false} CopiesWhatItReaches(node: Node, path: Path)
    ensures Look(node, path) == if Reached(node, path) then Whole(node, path) else None
    decreases |path|
  {
    if path != [] && node.DirNode? && Find(node.entries, path[0]).Some? {
      FindsTheName(node.entries, path[0]);
      CopiesWhatItReaches(Find(node.entries, path[0]).value.node, path[1..]);
    }
  }

  predicate Under(at: Path, p: Path) {
    |at| <= |p| && p[..|at|] == at
  }

  lemma UnderStep(at: Path, name: string, p: Path)
    ensures Under(at + [name], p) <==> Under(at, p) && at != p && p[|at|] == name
  {
    if Under(at + [name], p) {
      assert p[..|at|] == (at + [name])[..|at|];
      assert p[|at|] == (at + [name])[|at|];
    }
    if Under(at, p) && at != p {
      assert |p| > |at|;
      assert p[..|at| + 1] == p[..|at|] + [p[|at|]];
    }
  }

  /** What a copy of the node to `at` puts at a path. */
  function WantedAt(node: Node, at: Path, path: Path): Option<Item> {
    if Under(at, path) then Look(node, path[|at|..]) else None
  }

  /** A file is wanted as it is, a folder as a folder, and a link or a special file
      not at all. */
  lemma WantedIs(node: Node, at: Path, p: Path)
    ensures WantedAt(node, at, at) ==
      match node
      case FileNode(contents) => Some(FileItem(contents))
      case DirNode(_) => Some(FolderItem)
      case Special => None
    ensures !node.DirNode? && p != at ==> WantedAt(node, at, p).None?
  {
    assert at[|at|..] == [];
    if Under(at, p) && p != at {
      assert p[|at|..] != [];
    }
  }

  function Wanted(node: Node, at: Path): Path -> Option<Item> {
    (path: Path) => WantedAt(node, at, path)
  }

  /** The same, without the folder itself. */
  function InsideAt(entries: seq<Entry>, at: Path, path: Path): Option<Item> {
    if at == path then None else WantedAt(DirNode(entries), at, path)
  }

  function Inside(entries: seq<Entry>, at: Path): Path -> Option<Item> {
    (path: Path) => InsideAt(entries, at, path)
  }

  /** All of it was copied, and what was there was kept. */
  ghost predicate Merges(before: Nodes, after: Nodes, want: Path -> Option<Item>) {
    forall p :: Get(after, p) == Over(Get(before, p), want(p))
  }

  /** Some of it was copied, and what was there was kept. */
  ghost predicate Between(before: Nodes, after: Nodes, want: Path -> Option<Item>) {
    forall p :: Get(after, p) == Get(before, p) || Get(after, p) == Over(Get(before, p), want(p))
  }

  /** An old folder has the name of a new file. */
  ghost predicate Blocked(nodes: Nodes, want: Path -> Option<Item>) {
    exists p :: want(p) == Some(FolderItem) && IsFile(Get(nodes, p))
  }

  ghost predicate Apart(w1: Path -> Option<Item>, w2: Path -> Option<Item>) {
    forall p :: w1(p).None? || w2(p).None?
  }

  datatype Stop = Stopped | NameTaken(path: Path)

  /** What one copy reports, whatever order it is listed in: every file that was
      not there, and every file that was there with other contents. */
  function Report(nodes: Nodes, entries: seq<Entry>, at: Path): Copied
    decreases entries
  {
    if entries == [] then NOTHING
    else Report(nodes, entries[..|entries| - 1], at).Plus(ReportOne(nodes, entries[|entries| - 1], at))
  }

  function ReportOne(nodes: Nodes, entry: Entry, at: Path): Copied
    decreases entry
  {
    var target := at + [entry.name];
    if !entry.Copies() then NOTHING
    else
      match entry.node
      case DirNode(inner) => Report(nodes, inner, target)
      case FileNode(contents) =>
        if target !in nodes then Copied(1, [], 0)
        else if nodes[target] == FileItem(contents) then NOTHING
        else Copied(0, [target], 0)
      case Special => Copied(0, [], 1)
  }

  // ---- Wants, one after the other.

  /** `w` is the first want, and the second one where the first has nothing. */
  ghost predicate Joined(w1: Path -> Option<Item>, w2: Path -> Option<Item>, w: Path -> Option<Item>) {
    forall p :: w(p) == Over(w1(p), w2(p))
  }

  type Ending = Result<Copied, Stop>

  /** How a copy of `want` ends: all of it is there, or some of it and a reason. */
  ghost predicate Ends(before: Nodes, after: Nodes, want: Path -> Option<Item>, fuel: Fuel, r: Ending) {
    match r
    case Ok(_) => Merges(before, after, want) && !Blocked(before, want)
    case Err(Stopped) => Between(before, after, want) && fuel.Steps?
    case Err(NameTaken(p)) =>
      Between(before, after, want) && want(p) == Some(FolderItem) && IsFile(Get(before, p))
  }

  lemma SequelMerges(before: Nodes, mid: Nodes, after: Nodes, w1: Path -> Option<Item>, w2: Path -> Option<Item>,
                     w: Path -> Option<Item>)
    requires Joined(w1, w2, w) && Merges(before, mid, w1)
    ensures Merges(mid, after, w2) ==> Merges(before, after, w)
    ensures Between(mid, after, w2) ==> Between(before, after, w)
  {
  }

  lemma SequelBlocked(before: Nodes, mid: Nodes, w1: Path -> Option<Item>, w2: Path -> Option<Item>,
                      w: Path -> Option<Item>)
    requires Joined(w1, w2, w) && Apart(w1, w2) && Merges(before, mid, w1)
    ensures Blocked(before, w) <==> Blocked(before, w1) || Blocked(mid, w2)
  {
    if Blocked(before, w1) {
      var p :| w1(p) == Some(FolderItem) && IsFile(Get(before, p));
      assert w(p) == w1(p);
    }
    if Blocked(mid, w2) {
      var p :| w2(p) == Some(FolderItem) && IsFile(Get(mid, p));
      assert w1(p).None? && w(p) == w2(p);
    }
    if Blocked(before, w) {
      var p :| w(p) == Some(FolderItem) && IsFile(Get(before, p));
      assert w(p) == Over(w1(p), w2(p));
      assert Get(mid, p) == Get(before, p);
    }
  }

  /** A copy that goes on after a part of it is done ends as the whole does. */
  lemma Sequel(before: Nodes, mid: Nodes, after: Nodes, w1: Path -> Option<Item>, w2: Path -> Option<Item>,
               w: Path -> Option<Item>, fuel: Fuel, rest: Fuel, r: Ending)
    requires Joined(w1, w2, w) && Apart(w1, w2)
    requires Merges(before, mid, w1) && !Blocked(before, w1)
    requires Ends(mid, after, w2, rest, r) && rest.Steps? == fuel.Steps?
    ensures Ends(before, after, w, fuel, r)
  {
    SequelMerges(before, mid, after, w1, w2, w);
    SequelBlocked(before, mid, w1, w2, w);
    if r.Err? && r.error.NameTaken? {
      var p := r.error.path;
      assert w1(p).None? && w(p) == w2(p);
      assert Get(mid, p) == Get(before, p);
    }
  }

  /** A copy that stopped in its first part ends as the whole does. */
  lemma Widened(before: Nodes, after: Nodes, w1: Path -> Option<Item>, w2: Path -> Option<Item>,
                w: Path -> Option<Item>, fuel: Fuel, r: Ending)
    requires Joined(w1, w2, w) && Ends(before, after, w1, fuel, r) && r.Err?
    ensures Ends(before, after, w, fuel, r)
  {
    if r.error.NameTaken? {
      assert w(r.error.path) == w1(r.error.path);
    }
  }

  // ---- The wants of a folder's entries.

  /** What one entry adds. */
  function OneAt(entry: Entry, at: Path, path: Path): Option<Item> {
    if !entry.Copies() then None else WantedAt(entry.node, at + [entry.name], path)
  }

  function One(entry: Entry, at: Path): Path -> Option<Item> {
    (path: Path) => OneAt(entry, at, path)
  }

  function Only(at: Path): Path -> Option<Item> {
    (path: Path) => if path == at then Some(FolderItem) else None
  }

  lemma FolderFirst(entries: seq<Entry>, at: Path)
    ensures Joined(Only(at), Inside(entries, at), Wanted(DirNode(entries), at))
    ensures Apart(Only(at), Inside(entries, at))
  {
    assert at[|at|..] == [];
  }

  lemma {:induction false} FindParts(a: seq<Entry>, b: seq<Entry>, name: string)
    ensures Find(a + b, name) == if Find(a, name).Some? then Find(a, name) else Find(b, name)
  {
    if a == [] {
      assert a + b == b;
    } else {
      FindParts(a[1..], b, name);
      assert (a + b)[1..] == a[1..] + b;
    }
  }

  lemma {:induction false} ValidSplit(a: seq<Entry>, b: seq<Entry>)
    requires Valid(a + b)
    ensures Valid(a) && Valid(b)
    ensures forall name :: Find(a, name).None? || Find(b, name).None?
  {
    if a == [] {
      assert a + b == b;
    } else {
      assert (a + b)[1..] == a[1..] + b && (a + b)[0] == a[0];
      ValidSplit(a[1..], b);
      FindParts(a[1..], b, a[0].name);
    }
  }

  lemma JoinedAt(a: seq<Entry>, b: seq<Entry>, at: Path, p: Path)
    requires Valid(a + b)
    ensures InsideAt(a + b, at, p) == Over(InsideAt(a, at, p), InsideAt(b, at, p))
    ensures InsideAt(a, at, p).None? || InsideAt(b, at, p).None?
  {
    if Under(at, p) && at != p {
      ValidSplit(a, b);
      FindParts(a, b, p[|at|..][0]);
    }
  }

  lemma EntriesJoin(a: seq<Entry>, b: seq<Entry>, at: Path)
    requires Valid(a + b)
    ensures Joined(Inside(a, at), Inside(b, at), Inside(a + b, at))
    ensures Apart(Inside(a, at), Inside(b, at))
  {
    forall p ensures Inside(a + b, at)(p) == Over(Inside(a, at)(p), Inside(b, at)(p))
                  && (Inside(a, at)(p).None? || Inside(b, at)(p).None?)
    {
      JoinedAt(a, b, at, p);
    }
  }

  lemma FindOne(entry: Entry, name: string)
    ensures Find([entry], name) == if entry.name == name then Some(entry) else None
    ensures entry.node.DirNode? ==> (Valid([entry]) <==> Valid(entry.node.entries))
    ensures !entry.node.DirNode? ==> Valid([entry])
  {
    assert [entry][1..] == [];
  }

  lemma OnlyEntry(entry: Entry, at: Path, p: Path)
    ensures InsideAt([entry], at, p) == OneAt(entry, at, p)
  {
    UnderStep(at, entry.name, p);
    if Under(at, p) && at != p {
      var q := p[|at|..];
      assert q[1..] == p[|at| + 1..];
      FindOne(entry, q[0]);
    }
  }

  lemma SameJoin(w1: Path -> Option<Item>, w2: Path -> Option<Item>, same: Path -> Option<Item>,
                 w: Path -> Option<Item>)
    requires forall p :: w2(p) == same(p)
    requires Joined(w1, w2, w) && Apart(w1, w2)
    ensures Joined(w1, same, w) && Apart(w1, same)
  {
    forall p ensures w(p) == Over(w1(p), same(p)) && (w1(p).None? || same(p).None?) {
      assert w2(p) == same(p);
    }
  }

  lemma OneJoins(all: seq<Entry>, front: seq<Entry>, entry: Entry, at: Path)
    requires all == front + [entry] && Valid(all)
    ensures Joined(Inside(front, at), One(entry, at), Inside(all, at))
    ensures Apart(Inside(front, at), One(entry, at))
  {
    EntriesJoin(front, [entry], at);
    forall p ensures Inside([entry], at)(p) == One(entry, at)(p) {
      OnlyEntry(entry, at, p);
    }
    SameJoin(Inside(front, at), Inside([entry], at), One(entry, at), Inside(all, at));
  }

  lemma ValidTake(entries: seq<Entry>, n: nat)
    requires Valid(entries) && n <= |entries|
    ensures Valid(entries[..n])
  {
    assert entries == entries[..n] + entries[n..];
    ValidSplit(entries[..n], entries[n..]);
  }

  lemma TakeOneMore(entries: seq<Entry>, k: nat)
    requires k < |entries|
    ensures entries[..k + 1] == entries[..k] + [entries[k]]
  {
  }

  /** The entries up to one, and that one. */
  lemma NextJoins(entries: seq<Entry>, k: nat, at: Path)
    requires Valid(entries) && k < |entries|
    ensures Joined(Inside(entries[..k], at), One(entries[k], at), Inside(entries[..k + 1], at))
    ensures Apart(Inside(entries[..k], at), One(entries[k], at))
  {
    ValidTake(entries, k + 1);
    TakeOneMore(entries, k);
    OneJoins(entries[..k + 1], entries[..k], entries[k], at);
  }

  /** The entries up to one, and the rest. */
  lemma RestJoins(entries: seq<Entry>, k: nat, at: Path)
    requires Valid(entries) && k <= |entries|
    ensures Joined(Inside(entries[..k], at), Inside(entries[k..], at), Inside(entries, at))
  {
    assert entries == entries[..k] + entries[k..];
    EntriesJoin(entries[..k], entries[k..], at);
  }

  lemma {:induction false} ValidAt(entries: seq<Entry>, k: nat)
    requires Valid(entries) && k < |entries| && entries[k].node.DirNode?
    ensures Valid(entries[k].node.entries)
  {
    if k > 0 {
      ValidAt(entries[1..], k - 1);
    }
  }

  // ---- A report only depends on what was there.

  lemma {:induction false} ReportSame(n1: Nodes, n2: Nodes, entries: seq<Entry>, at: Path)
    requires forall p :: Under(at, p) && at != p ==> Get(n1, p) == Get(n2, p)
    ensures Report(n1, entries, at) == Report(n2, entries, at)
    decreases entries
  {
    if entries != [] {
      var last := entries[|entries| - 1];
      ReportSame(n1, n2, entries[..|entries| - 1], at);
      forall p | Under(at + [last.name], p) ensures Get(n1, p) == Get(n2, p) {
        UnderStep(at, last.name, p);
      }
      ReportOneSame(n1, n2, last, at);
    }
  }

  lemma {:induction false} ReportOneSame(n1: Nodes, n2: Nodes, entry: Entry, at: Path)
    requires forall p :: Under(at + [entry.name], p) ==> Get(n1, p) == Get(n2, p)
    ensures ReportOne(n1, entry, at) == ReportOne(n2, entry, at)
    decreases entry
  {
    var target := at + [entry.name];
    assert Get(n1, target) == Get(n2, target);
    if entry.node.DirNode? {
      ReportSame(n1, n2, entry.node.entries, target);
    }
  }

  /** A file is wanted where something else is. */
  ghost predicate Clashes(nodes: Nodes, want: Option<Item>, p: Path) {
    IsFile(want) && p in nodes && nodes[p] != want.value
  }

  /** The files a report lists as kept apart are exactly those whose name had
      something else. */
  lemma {:induction false} ClashedExactly(nodes: Nodes, entries: seq<Entry>, at: Path, p: Path)
    requires Valid(entries)
    ensures p in Report(nodes, entries, at).clashed <==> Clashes(nodes, InsideAt(entries, at, p), p)
    decreases entries, 0
  {
    if entries != [] {
      var (front, last) := (entries[..|entries| - 1], entries[|entries| - 1]);
      assert entries == front + [last];
      ValidTake(entries, |entries| - 1);
      ClashedExactly(nodes, front, at, p);
      if last.node.DirNode? {
        ValidAt(entries, |entries| - 1);
      }
      ClashedOne(nodes, last, at, p);
      JoinedAt(front, [last], at, p);
      OnlyEntry(last, at, p);
    }
  }

  lemma {:induction false} ClashedOne(nodes: Nodes, entry: Entry, at: Path, p: Path)
    requires entry.node.DirNode? ==> Valid(entry.node.entries)
    ensures p in ReportOne(nodes, entry, at).clashed <==> Clashes(nodes, OneAt(entry, at, p), p)
    decreases entry, 1
  {
    var target := at + [entry.name];
    assert target[|target|..] == [];
    match entry.node
    case DirNode(inner) => ClashedExactly(nodes, inner, target, p);
    case FileNode(contents) =>
      if p != target && Under(target, p) {
        assert p[|target|..] != [];
      }
    case Special =>
  }

  // ---- A report counts the leaves of the folder.

  /** A file, a link or a special file the copy comes to. */
  datatype Leaf = Leaf(path: Path, node: Node)

  /** The leaves a copy comes to, in the order it does. */
  function Leaves(entries: seq<Entry>, at: Path): seq<Leaf>
    decreases entries
  {
    if entries == [] then []
    else Leaves(entries[..|entries| - 1], at) + LeavesOf(entries[|entries| - 1], at)
  }

  function LeavesOf(entry: Entry, at: Path): seq<Leaf>
    decreases entry
  {
    var target := at + [entry.name];
    if entry.name == MOVED_NOTE || !entry.listed then []
    else if entry.node.DirNode? then Leaves(entry.node.entries, target)
    else [Leaf(target, entry.node)]
  }

  function IsNew(nodes: Nodes): Leaf -> bool {
    (leaf: Leaf) => leaf.node.FileNode? && Get(nodes, leaf.path).None?
  }

  function IsOther(nodes: Nodes): Leaf -> bool {
    (leaf: Leaf) =>
      leaf.node.FileNode? && Get(nodes, leaf.path).Some? && Get(nodes, leaf.path) != Some(FileItem(leaf.node.contents))
  }

  function IsSpecial(): Leaf -> bool {
    (leaf: Leaf) => leaf.node.Special?
  }

  function PathsOf(leaves: seq<Leaf>): (paths: seq<Path>)
    ensures |paths| == |leaves| && forall i :: 0 <= i < |leaves| ==> paths[i] == leaves[i].path
  {
    seq(|leaves|, i requires 0 <= i < |leaves| => leaves[i].path)
  }

  /** How many files are new, which ones were there with something else, in the
      order they are met, and how many leaves are no files. */
  function Tallied(nodes: Nodes, leaves: seq<Leaf>): Copied {
    Copied(|Kept(leaves, IsNew(nodes))|, PathsOf(Kept(leaves, IsOther(nodes))), |Kept(leaves, IsSpecial())|)
  }

  lemma TalliedParts(nodes: Nodes, a: seq<Leaf>, b: seq<Leaf>)
    ensures var (x, y, all) := (Tallied(nodes, a), Tallied(nodes, b), Tallied(nodes, a + b));
      && all.copied == x.copied + y.copied && all.skipped == x.skipped + y.skipped
      && all.clashed == x.clashed + y.clashed
  {
    KeptSplit(a, b, IsNew(nodes));
    KeptSplit(a, b, IsOther(nodes));
    KeptSplit(a, b, IsSpecial());
  }

  lemma OneTallied(nodes: Nodes, leaf: Leaf)
    ensures var (t, node) := (Tallied(nodes, [leaf]), leaf.node);
      && t.copied == (if node.FileNode? && leaf.path !in nodes then 1 else 0)
      && t.clashed == (if node.FileNode? && leaf.path in nodes && nodes[leaf.path] != FileItem(node.contents)
                       then [leaf.path] else [])
      && t.skipped == (if node.Special? then 1 else 0)
  {
    KeptOne(leaf, IsNew(nodes));
    KeptOne(leaf, IsOther(nodes));
    KeptOne(leaf, IsSpecial());
  }

  /** The report of a copy counts exactly the leaves it came to. */
  lemma {:induction false} ReportIsTally(nodes: Nodes, entries: seq<Entry>, at: Path)
    ensures Report(nodes, entries, at) == Tallied(nodes, Leaves(entries, at))
    decreases entries
  {
    if entries != [] {
      var (front, last) := (entries[..|entries| - 1], entries[|entries| - 1]);
      ReportIsTally(nodes, front, at);
      ReportOneIsTally(nodes, last, at);
      TalliedParts(nodes, Leaves(front, at), LeavesOf(last, at));
    }
  }

  lemma {:induction false} ReportOneIsTally(nodes: Nodes, entry: Entry, at: Path)
    ensures ReportOne(nodes, entry, at) == Tallied(nodes, LeavesOf(entry, at))
    decreases entry
  {
    var target := at + [entry.name];
    if entry.Copies() {
      if entry.node.DirNode? {
        ReportIsTally(nodes, entry.node.entries, target);
      } else {
        OneTallied(nodes, Leaf(target, entry.node));
      }
    }
  }

  /** The files among the leaves are exactly the files a copy wants. */
  lemma {:induction false} LeavesAreWanted(entries: seq<Entry>, at: Path, p: Path, contents: Contents)
    requires Valid(entries)
    ensures Leaf(p, FileNode(contents)) in Leaves(entries, at) <==> InsideAt(entries, at, p) == Some(FileItem(contents))
    decreases entries, 0
  {
    if entries != [] {
      var (front, last) := (entries[..|entries| - 1], entries[|entries| - 1]);
      assert entries == front + [last];
      ValidTake(entries, |entries| - 1);
      LeavesAreWanted(front, at, p, contents);
      if last.node.DirNode? {
        ValidAt(entries, |entries| - 1);
      }
      LeavesOfWanted(last, at, p, contents);
      JoinedAt(front, [last], at, p);
      OnlyEntry(last, at, p);
    }
  }

  lemma {:induction false} LeavesOfWanted(entry: Entry, at: Path, p: Path, contents: Contents)
    requires entry.node.DirNode? ==> Valid(entry.node.entries)
    ensures Leaf(p, FileNode(contents)) in LeavesOf(entry, at) <==> OneAt(entry, at, p) == Some(FileItem(contents))
    decreases entry, 1
  {
    var target := at + [entry.name];
    assert target[|target|..] == [];
    match entry.node
    case DirNode(inner) => LeavesAreWanted(inner, target, p, contents);
    case FileNode(_) =>
      if p != target && Under(target, p) {
        assert p[|target|..] != [];
      }
    case Special =>
  }

  lemma NotYetCopied(before: Nodes, mid: Nodes, entries: seq<Entry>, k: nat, at: Path)
    requires Valid(entries) && k < |entries| && Merges(before, mid, Inside(entries[..k], at))
    ensures ReportOne(mid, entries[k], at) == ReportOne(before, entries[k], at)
  {
    var target := at + [entries[k].name];
    assert entries == entries[..k] + entries[k..] && entries[k..][0] == entries[k];
    ValidSplit(entries[..k], entries[k..]);
    forall p | Under(target, p) ensures Get(before, p) == Get(mid, p) {
      UnderStep(at, entries[k].name, p);
      assert Inside(entries[..k], at)(p).None?;
    }
    ReportOneSame(mid, before, entries[k], at);
  }

  lemma ReportMore(nodes: Nodes, entries: seq<Entry>, k: nat, at: Path)
    requires k < |entries|
    ensures Report(nodes, entries[..k + 1], at)
      == Report(nodes, entries[..k], at).Plus(ReportOne(nodes, entries[k], at))
  {
    assert entries[..k + 1][..k] == entries[..k];
  }

  lemma SameWant(before: Nodes, after: Nodes, w1: Path -> Option<Item>, w2: Path -> Option<Item>, fuel: Fuel, r: Ending)
    requires forall p :: w1(p) == w2(p)
    requires Ends(before, after, w1, fuel, r)
    ensures Ends(before, after, w2, fuel, r)
  {
  }

  lemma NothingWanted(nodes: Nodes, want: Path -> Option<Item>, fuel: Fuel, stats: Copied)
    requires forall p :: want(p).None?
    ensures Ends(nodes, nodes, want, fuel, Ok(stats))
  {
  }

  lemma FolderMade(before: Nodes, entries: seq<Entry>, at: Path)
    requires !IsFile(Get(before, at))
    ensures Merges(before, before[at := FolderItem], Only(at)) && !Blocked(before, Only(at))
    ensures Report(before[at := FolderItem], entries, at) == Report(before, entries, at)
  {
    ReportSame(before[at := FolderItem], before, entries, at);
  }

  lemma FolderTaken(before: Nodes, entries: seq<Entry>, at: Path, fuel: Fuel)
    requires IsFile(Get(before, at))
    ensures Ends(before, before, Wanted(DirNode(entries), at), fuel, Err(NameTaken(at)))
  {
    assert at[|at|..] == [];
  }

  lemma FileMade(before: Nodes, contents: Contents, at: Path, fuel: Fuel, stats: Copied)
    ensures var after := if at in before then before else before[at := FileItem(contents)];
      Ends(before, after, Wanted(FileNode(contents), at), fuel, Ok(stats))
  {
    assert at[|at|..] == [];
    forall p | p != at && Under(at, p) ensures Wanted(FileNode(contents), at)(p).None? {
      assert p[|at|..] != [];
    }
  }

  // ---- What a copy misses.

  /** The folder holds something for the path, and this run does not reach it. */
  predicate MissedAt(node: Node, at: Path, p: Path) {
    Under(at, p) && Whole(node, p[|at|..]).Some? && !Reached(node, p[|at|..])
  }

  /** Everything of the folder is there that nothing was in the way of. */
  ghost predicate HoldsWhole(before: Nodes, after: Nodes, node: Node, at: Path) {
    forall p :: Get(after, p) == Over(Get(before, p), if Under(at, p) then Whole(node, p[|at|..]) else None)
  }

  /** A copy that ends well brought the whole folder exactly when every entry it
      missed had nothing new. */
  lemma CopyIsWholeExactly(before: Nodes, after: Nodes, node: Node, at: Path)
    requires Merges(before, after, Wanted(node, at))
    ensures HoldsWhole(before, after, node, at) <==> forall p :: MissedAt(node, at, p) ==> p in before
  {
    forall p ensures
      (Get(after, p) == Over(Get(before, p), if Under(at, p) then Whole(node, p[|at|..]) else None))
      <==> (MissedAt(node, at, p) ==> p in before)
    {
      assert Get(after, p) == Over(Get(before, p), Wanted(node, at)(p));
      if Under(at, p) {
        CopiesWhatItReaches(node, p[|at|..]);
      }
    }
  }

  class NewFolder {
    var nodes: Nodes

    constructor (nodes: Nodes)
      ensures this.nodes == nodes
    {
      this.nodes := nodes;
    }

    /** Makes a folder unless it is there. A file of that name is an error. */
    method CreateDir(path: Path) returns (ok: bool)
      modifies this
      ensures ok <==> !IsFile(Get(old(nodes), path))
      ensures nodes == if ok then old(nodes)[path := FolderItem] else old(nodes)
    {
      ok := !IsFile(Get(nodes, path));
      if ok {
        nodes := nodes[path := FolderItem];
      }
    }

    /** Puts a whole file in place unless its name is taken. */
    method CopyNew(contents: Contents, path: Path) returns (copied: bool)
      modifies this
      ensures copied <==> path !in old(nodes)
      ensures nodes == if copied then old(nodes)[path := FileItem(contents)] else old(nodes)
    {
      copied := path !in nodes;
      if copied {
        nodes := nodes[path := FileItem(contents)];
      }
    }

    /** `copy_missing`: copies the entries of an old folder into `at`. */
    method CopyMissing(entries: seq<Entry>, at: Path, fuel: Fuel) returns (r: Ending, rest: Fuel)
      requires Valid(entries)
      modifies this
      ensures Ends(old(nodes), nodes, Inside(entries, at), fuel, r)
      ensures r.Ok? ==> r.value == Report(old(nodes), entries, at)
      ensures rest.Steps? == fuel.Steps?
      decreases entries, 0
    {
      ghost var before := nodes;
      var stats := NOTHING;
      rest := fuel;
      for k := 0 to |entries|
        invariant rest.Steps? == fuel.Steps?
        invariant Ends(before, nodes, Inside(entries[..k], at), fuel, Ok(stats))
        invariant stats == Report(before, entries[..k], at)
      {
        ghost var mid := nodes;
        NextJoins(entries, k, at);
        if entries[k].node.DirNode? {
          ValidAt(entries, k);
        }
        r, rest := CopyOne(entries[k], at, rest);
        Sequel(before, mid, nodes, Inside(entries[..k], at), One(entries[k], at), Inside(entries[..k + 1], at),
               fuel, rest, r);
        if r.Err? {
          RestJoins(entries, k + 1, at);
          Widened(before, nodes, Inside(entries[..k + 1], at), Inside(entries[k + 1..], at), Inside(entries, at),
                  fuel, r);
          return;
        }
        NotYetCopied(before, mid, entries, k, at);
        ReportMore(before, entries, k, at);
        stats := stats.Plus(r.value);
      }
      assert entries[..|entries|] == entries;
      r := Ok(stats);
    }

    method CopyOne(entry: Entry, at: Path, fuel: Fuel) returns (r: Ending, rest: Fuel)
      requires entry.node.DirNode? ==> Valid(entry.node.entries)
      modifies this
      ensures Ends(old(nodes), nodes, One(entry, at), fuel, r)
      ensures r.Ok? ==> r.value == ReportOne(old(nodes), entry, at)
      ensures rest.Steps? == fuel.Steps?
      decreases entry
    {
      ghost var before := nodes;
      var target := at + [entry.name];
      r, rest := Ok(NOTHING), fuel;
      if !entry.Copies() {
        NothingWanted(before, One(entry, at), fuel, NOTHING);
        return;
      }
      match entry.node
      case DirNode(inner) =>
        r, rest := CopyFolder(inner, target, fuel);
        SameWant(before, nodes, Wanted(entry.node, target), One(entry, at), fuel, r);
      case FileNode(contents) =>
        if fuel == Steps(0) {
          return Err(Stopped), fuel;
        }
        rest := fuel.Spend();
        var copied := CopyNew(contents, target);
        if copied {
          r := Ok(Copied(1, [], 0));
        } else if nodes[target] != FileItem(contents) {
          r := Ok(Copied(0, [target], 0));
        }
        FileMade(before, contents, target, fuel, r.value);
        SameWant(before, nodes, Wanted(entry.node, target), One(entry, at), fuel, r);
      case Special =>
        r := Ok(Copied(0, [], 1));
        forall p ensures One(entry, at)(p).None? {
          assert WantedAt(Special, target, p).None?;
        }
        NothingWanted(before, One(entry, at), fuel, r.value);
    }

    /** Makes the folder at `at` and copies the entries into it. */
    method CopyFolder(entries: seq<Entry>, at: Path, fuel: Fuel) returns (r: Ending, rest: Fuel)
      requires Valid(entries)
      modifies this
      ensures Ends(old(nodes), nodes, Wanted(DirNode(entries), at), fuel, r)
      ensures r.Ok? ==> r.value == Report(old(nodes), entries, at)
      ensures rest.Steps? == fuel.Steps?
      decreases entries, 1
    {
      ghost var before := nodes;
      if fuel == Steps(0) {
        return Err(Stopped), fuel;
      }
      rest := fuel.Spend();
      var made := CreateDir(at);
      if !made {
        FolderTaken(before, entries, at, fuel);
        return Err(NameTaken(at)), rest;
      }
      ghost var mid := nodes;
      FolderMade(before, entries, at);
      FolderFirst(entries, at);
      r, rest := CopyMissing(entries, at, rest);
      Sequel(before, mid, nodes, Only(at), Inside(entries, at), Wanted(DirNode(entries), at), fuel, rest, r);
    }
  }
}
