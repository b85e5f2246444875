/** The corpus manifest, the CRLF search and the caching fetch
    (crates/code-bench/src/corpus.rs). The transport, the waits and the file
    faults are inputs. */
module Corpus {
  import opened Base
  import opened Text

  const LICENSE_ALLOWLIST := {"MIT", "Apache-2.0", "BSD-2-Clause", "BSD-3-Clause", "ISC"}
  const MAX_FETCH_ATTEMPTS: nat := 3
  const BACKOFF_BASE: nat := 2
  const COMMIT_HEX_LEN: nat := 40
  const NUL_PROBE_BYTES: nat := 8 * 1024
  const GIT_DIR := ".git"
  const PARTIAL := ".partial"

  type Byte = x: int | 0 <= x < 256

  datatype Error =
    | Invalid(what: string)
    | License(repo: string, license: string)
    | FetchFailed(repo: string, attempts: nat, last: string)
    | Crlf(repo: string, path: seq<string>)
    | Io
    | Killed                                           // the process ended here

  // ---- The manifest.

  datatype Repo = Repo(name: string, url: string, commit: string, language: string, license: string)

  datatype Manifest = Manifest(tools: seq<string>, repos: seq<Repo>)

  predicate IsHex(s: string) {
    forall k :: 0 <= k < |s| ==> IsDigit(s[k]) || 'a' <= s[k] <= 'f' || 'A' <= s[k] <= 'F'
  }

  predicate RepoIsPinned(r: Repo) {
    |r.commit| == COMMIT_HEX_LEN && IsHex(r.commit) && r.license in LICENSE_ALLOWLIST
  }

  ghost predicate NamesOnce(repos: seq<Repo>) {
    forall j, k :: 0 <= j < k < |repos| ==> repos[j].name != repos[k].name
  }

  ghost predicate IsValid(m: Manifest) {
    && (forall k :: 0 <= k < |m.tools| ==> !IsBlank(m.tools[k]))
    && (forall k :: 0 <= k < |m.repos| ==> RepoIsPinned(m.repos[k]))
    && NamesOnce(m.repos)
  }

  predicate IsHexDigit(c: char) {
    c in "0123456789" || c in "abcdef" || c in "ABCDEF"
  }

  lemma HexDigitExactly(c: char)
    ensures IsHexDigit(c) <==> IsDigit(c) || 'a' <= c <= 'f' || 'A' <= c <= 'F'
  {
  }

  /** A commit is pinned by forty hex digits, in either case. */
  lemma PinnedExactly(r: Repo)
    ensures RepoIsPinned(r) <==>
      && |r.commit| == 40 && (forall k :: 0 <= k < 40 ==> IsHexDigit(r.commit[k]))
      && r.license in {"MIT", "Apache-2.0", "BSD-2-Clause", "BSD-3-Clause", "ISC"}
  {
    forall c ensures IsHexDigit(c) <==> IsDigit(c) || 'a' <= c <= 'f' || 'A' <= c <= 'F' {
      HexDigitExactly(c);
    }
  }

  /** What is wrong with entry `k`, first the commit, then the license, then a name
      that was listed before. */
  ghost predicate Wrong(m: Manifest, k: nat, error: Error)
    requires k < |m.repos|
  {
    var repo := m.repos[k];
    if |repo.commit| != 40 || !IsHex(repo.commit) then error == Invalid(repo.name)
    else if !RepoIsPinned(repo) then error == License(repo.name, repo.license)
    else error == Invalid(repo.name) && exists j :: 0 <= j < k && m.repos[j].name == repo.name
  }

  /** Accepts a manifest exactly when every tool has a version, every repo is
      pinned and licensed, and no name is listed twice; else names the first fault. */
  method Validate(m: Manifest) returns (r: Result<(), Error>)
    ensures r.Ok? <==> IsValid(m)
    ensures r.Err? ==>
      if exists k :: 0 <= k < |m.tools| && IsBlank(m.tools[k]) then r.error == Invalid("tools")
      else exists k: nat :: k < |m.repos| && Wrong(m, k, r.error) && IsValid(m.(repos := m.repos[..k]))
  {
    for k := 0 to |m.tools|
      invariant forall j :: 0 <= j < k ==> !IsBlank(m.tools[j])
    {
      if IsBlank(m.tools[k]) {
        return Err(Invalid("tools"));
      }
    }
    for k := 0 to |m.repos|
      invariant forall j :: 0 <= j < k ==> RepoIsPinned(m.repos[j])
      invariant NamesOnce(m.repos[..k])
    {
      var repo := m.repos[k];
      assert IsValid(m.(repos := m.repos[..k]));
      if |repo.commit| != COMMIT_HEX_LEN || !IsHex(repo.commit) {
        return Err(Invalid(repo.name));
      }
      if repo.license !in LICENSE_ALLOWLIST {
        return Err(License(repo.name, repo.license));
      }
      if exists j :: 0 <= j < k && m.repos[j].name == repo.name {
        return Err(Invalid(repo.name));
      }
    }
    assert m.repos[..|m.repos|] == m.repos;
    r := Ok(());
  }

  // ---- The CRLF search.

  /** A checkout; a broken file or folder cannot be read. */
  datatype Node = File(data: seq<Byte>) | Dir(entries: seq<Entry>) | BrokenFile | BrokenDir {
    predicate IsDir() {
      Dir? || BrokenDir?
    }
  }

  datatype Entry = Entry(name: string, node: Node)

  /** A text file that holds a CRLF pair; a NUL near its start makes it binary. */
  predicate IsCrlfText(data: seq<Byte>) {
    && (forall k :: 0 <= k < |data| && k < NUL_PROBE_BYTES ==> data[k] != 0)
    && (exists k :: 0 <= k < |data| - 1 && data[k] == 13 && data[k + 1] == 10)
  }

  /** A file is text when the first 8 KiB hold no zero byte, and it is searched as a
      whole for a line end of two bytes. */
  lemma IsCrlfTextExactly(data: seq<Byte>)
    ensures IsCrlfText(data) <==>
      && 0 !in data[..Min(|data|, 8192)]
      && exists before, after :: data == before + [13, 10] + after
  {
    if IsCrlfText(data) {
      var k :| 0 <= k < |data| - 1 && data[k] == 13 && data[k + 1] == 10;
      assert data == data[..k] + [13, 10] + data[k + 2..];
    }
    if before, after :| data == before + [13, 10] + after {
      assert data[|before|] == 13 && data[|before| + 1] == 10;
    }
    if 0 !in data[..Min(|data|, 8192)] {
      forall k | 0 <= k < |data| && k < 8192 ensures data[k] != 0 {
        assert data[k] == data[..Min(|data|, 8192)][k];
      }
    }
  }

  predicate IsCrlfFile(node: Node) {
    node.File? && IsCrlfText(node.data)
  }

  /** The entry leads there without entering a `.git`. */
  ghost predicate LeadsTo(dir: Node, name: string, node: Node) {
    dir.Dir? && name != GIT_DIR && Entry(name, node) in dir.entries
  }

  /** `path` leads from `root` to `node`, outside `.git`. */
  ghost predicate Reaches(root: Node, path: seq<string>, node: Node)
    decreases |path|
  {
    if path == [] then node == root
    else exists parent {:trigger Reaches(root, path[..|path| - 1], parent)} ::
           Reaches(root, path[..|path| - 1], parent) && LeadsTo(parent, path[|path| - 1], node)
  }

  lemma ReachesStep(root: Node, path: seq<string>, dir: Node, name: string, node: Node)
    requires Reaches(root, path, dir) && LeadsTo(dir, name, node)
    ensures Reaches(root, path + [name], node)
  {
    var longer := path + [name];
    assert longer[..|longer| - 1] == path && longer[|longer| - 1] == name;
  }

  /** Whether anything under a node, outside `.git`, answers to `p`. */
  ghost predicate Under(node: Node, p: Node -> bool)
    decreases node
  {
    p(node) ||
    (node.Dir? &&
     exists k :: 0 <= k < |node.entries| && node.entries[k].name != GIT_DIR && Under(node.entries[k].node, p))
  }

  lemma {:induction false} ReachedIsUnder(root: Node, path: seq<string>, node: Node, p: Node -> bool)
    requires Reaches(root, path, node) && Under(node, p)
    ensures Under(root, p)
    decreases |path|
  {
    if path != [] {
      var parent :| Reaches(root, path[..|path| - 1], parent) && LeadsTo(parent, path[|path| - 1], node);
      var k :| 0 <= k < |parent.entries| && parent.entries[k] == Entry(path[|path| - 1], node);
      ReachedIsUnder(root, path[..|path| - 1], parent, p);
    }
  }

  /** A folder still to search, with the path that led to it. */
  datatype Todo = Todo(path: seq<string>, node: Node)

  function Size(node: Node): nat
    decreases node
  {
    1 + (if node.Dir? then SizeOf(node.entries) else 0)
  }

  function SizeOf(entries: seq<Entry>): nat
    decreases entries
  {
    if entries == [] then 0 else SizeOf(entries[1..]) + Size(entries[0].node)
  }

  function TodoSize(pending: seq<Todo>): nat {
    if pending == [] then 0 else TodoSize(pending[..|pending| - 1]) + Size(pending[|pending| - 1].node)
  }

  ghost predicate AnyUnder(pending: seq<Todo>, p: Node -> bool) {
    exists k :: 0 <= k < |pending| && Under(pending[k].node, p)
  }

  ghost predicate EntriesUnder(entries: seq<Entry>, from: nat, p: Node -> bool) {
    exists k :: from <= k < |entries| && entries[k].name != GIT_DIR && Under(entries[k].node, p)
  }

  ghost predicate AllReached(root: Node, pending: seq<Todo>) {
    forall k :: 0 <= k < |pending| ==>
      Reaches(root, pending[k].path, pending[k].node) && (pending[k].path == [] || pending[k].node.IsDir())
  }

  /** What is left to search holds everything that is under the root. */
  ghost predicate Frontier(root: Node, pending: seq<Todo>, entries: seq<Entry>, from: nat, p: Node -> bool) {
    Under(root, p) ==> AnyUnder(pending, p) || EntriesUnder(entries, from, p)
  }

  predicate IsBroken(node: Node) {
    node.BrokenFile? || node.BrokenDir?
  }

  lemma FrontierPops(root: Node, pending: seq<Todo>, p: Node -> bool)
    requires pending != [] && Frontier(root, pending, [], 0, p)
    requires var last := pending[|pending| - 1].node; last.Dir? && !p(last)
    ensures Frontier(root, pending[..|pending| - 1], pending[|pending| - 1].node.entries, 0, p)
  {
    var front := pending[..|pending| - 1];
    if Under(root, p) {
      var k :| 0 <= k < |pending| && Under(pending[k].node, p);
      if k < |front| {
        assert front[k] == pending[k];
      }
    }
  }

  lemma FrontierSkips(root: Node, pending: seq<Todo>, entries: seq<Entry>, from: nat, p: Node -> bool)
    requires from < |entries| && Frontier(root, pending, entries, from, p)
    requires entries[from].name == GIT_DIR || (!entries[from].node.IsDir() && !p(entries[from].node))
    ensures Frontier(root, pending, entries, from + 1, p)
  {
    if Under(root, p) && !AnyUnder(pending, p) {
      var k :| from <= k < |entries| && entries[k].name != GIT_DIR && Under(entries[k].node, p);
      assert k != from;
    }
  }

  lemma FrontierPushes(root: Node, pending: seq<Todo>, entries: seq<Entry>, from: nat, path: seq<string>,
                       p: Node -> bool)
    requires from < |entries| && Frontier(root, pending, entries, from, p)
    ensures Frontier(root, pending + [Todo(path, entries[from].node)], entries, from + 1, p)
  {
    var more := pending + [Todo(path, entries[from].node)];
    if Under(root, p) {
      if AnyUnder(pending, p) {
        var k :| 0 <= k < |pending| && Under(pending[k].node, p);
        assert more[k] == pending[k];
      } else {
        var k :| from <= k < |entries| && entries[k].name != GIT_DIR && Under(entries[k].node, p);
        if k == from {
          assert more[|pending|].node == entries[from].node;
        }
      }
    }
  }

  lemma EmptyFrontier(root: Node, p: Node -> bool)
    requires Frontier(root, [], [], 0, p)
    ensures forall path, node :: Reaches(root, path, node) ==> !p(node)
  {
    forall path, node | Reaches(root, path, node) ensures !p(node) {
      if p(node) {
        assert Under(node, p);
        ReachedIsUnder(root, path, node, p);
        assert false;
      }
    }
  }

  /** The worklist between two entries of one folder. */
  ghost predicate Searching(root: Node, pending: seq<Todo>, entries: seq<Entry>, from: nat) {
    && AllReached(root, pending)
    && Frontier(root, pending, entries, from, IsCrlfFile)
    && Frontier(root, pending, entries, from, IsBroken)
  }

  /** A readable checkout without a CRLF text file outside `.git`. */
  ghost predicate Sound(root: Node) {
    root.Dir? && forall path, node :: Reaches(root, path, node) ==> !IsCrlfFile(node) && !IsBroken(node)
  }

  /** What the search answers: a path to a CRLF text file, or that everything
      outside `.git` could be read and none is there, or an unreadable entry. */
  ghost predicate Answers(root: Node, r: Result<Option<seq<string>>, Error>) {
    match r
    case Ok(Some(path)) => exists node :: Reaches(root, path, node) && IsCrlfFile(node)
    case Ok(None) => Sound(root)
    case Err(_) => root.File? || exists path, node :: Reaches(root, path, node) && IsBroken(node)
  }

  lemma SearchSkips(root: Node, pending: seq<Todo>, entries: seq<Entry>, k: nat)
    requires k < |entries| && Searching(root, pending, entries, k)
    requires entries[k].name == GIT_DIR || (entries[k].node.File? && !IsCrlfText(entries[k].node.data))
    ensures Searching(root, pending, entries, k + 1)
  {
    FrontierSkips(root, pending, entries, k, IsCrlfFile);
    FrontierSkips(root, pending, entries, k, IsBroken);
  }

  lemma SearchPushes(root: Node, pending: seq<Todo>, entries: seq<Entry>, k: nat, path: seq<string>)
    requires k < |entries| && Searching(root, pending, entries, k)
    requires entries[k].node.IsDir() && Reaches(root, path, entries[k].node)
    ensures Searching(root, pending + [Todo(path, entries[k].node)], entries, k + 1)
    ensures TodoSize(pending + [Todo(path, entries[k].node)]) == TodoSize(pending) + Size(entries[k].node)
  {
    FrontierPushes(root, pending, entries, k, path, IsCrlfFile);
    FrontierPushes(root, pending, entries, k, path, IsBroken);
    var more := pending + [Todo(path, entries[k].node)];
    assert more[..|more| - 1] == pending;
  }

  lemma SearchEnds(root: Node, pending: seq<Todo>, entries: seq<Entry>)
    requires Searching(root, pending, entries, |entries|)
    ensures Searching(root, pending, [], 0)
  {
    assert !EntriesUnder(entries, |entries|, IsCrlfFile) && !EntriesUnder(entries, |entries|, IsBroken);
  }

  lemma EntryReached(root: Node, dir: Todo, k: nat)
    requires dir.node.Dir? && Reaches(root, dir.path, dir.node)
    requires k < |dir.node.entries| && dir.node.entries[k].name != GIT_DIR
    ensures Reaches(root, dir.path + [dir.node.entries[k].name], dir.node.entries[k].node)
  {
    var entry := dir.node.entries[k];
    assert entry == Entry(entry.name, entry.node) && entry in dir.node.entries;
    ReachesStep(root, dir.path, dir.node, entry.name, entry.node);
  }

  /** Searches one folder: pushes its folders and stops at a CRLF text file. */
  method SearchFolder(root: Node, dir: Todo, before: seq<Todo>)
    returns (pending: seq<Todo>, answer: Option<Result<Option<seq<string>>, Error>>)
    requires dir.node.Dir? && Reaches(root, dir.path, dir.node)
    requires Searching(root, before, dir.node.entries, 0)
    ensures answer.Some? ==> Answers(root, answer.value)
    ensures answer.None? ==> Searching(root, pending, [], 0)
    ensures answer.None? ==> TodoSize(pending) <= TodoSize(before) + SizeOf(dir.node.entries)
  {
    var entries := dir.node.entries;
    pending := before;
    assert entries[0..] == entries;
    for k := 0 to |entries|
      invariant Searching(root, pending, entries, k)
      invariant TodoSize(pending) + SizeOf(entries[k..]) <= TodoSize(before) + SizeOf(entries)
    {
      assert entries[k..][1..] == entries[k + 1..];
      if entries[k].name == GIT_DIR {
        SearchSkips(root, pending, entries, k);
        continue;
      }
      var (path, node) := (dir.path + [entries[k].name], entries[k].node);
      EntryReached(root, dir, k);
      if node.IsDir() {
        SearchPushes(root, pending, entries, k, path);
        pending := pending + [Todo(path, node)];
        continue;
      }
      if node.BrokenFile? {
        return pending, Some(Err(Io));
      }
      if IsCrlfText(node.data) {
        return pending, Some(Ok(Some(path)));
      }
      SearchSkips(root, pending, entries, k);
    }
    SearchEnds(root, pending, entries);
    answer := None;
  }

  /** Searches the whole checkout, folder by folder. */
  method FindCrlf(root: Node) returns (r: Result<Option<seq<string>>, Error>)
    ensures Answers(root, r)
  {
    var pending := [Todo([], root)];
    assert pending[0].node == root;
    assert pending[..0] == [];
    while pending != []
      invariant Searching(root, pending, [], 0)
      invariant root.Dir? || pending == [Todo([], root)]
      decreases TodoSize(pending)
    {
      var dir := pending[|pending| - 1];
      assert Reaches(root, dir.path, dir.node);
      if !dir.node.Dir? {
        return Err(Io);
      }
      FrontierPops(root, pending, IsCrlfFile);
      FrontierPops(root, pending, IsBroken);
      var more, answer := SearchFolder(root, dir, pending[..|pending| - 1]);
      if answer.Some? {
        return answer.value;
      }
      pending := more;
    }
    EmptyFrontier(root, IsCrlfFile);
    EmptyFrontier(root, IsBroken);
    r := Ok(None);
  }

  // ---- The caching fetch.

  type Dirs = map<string, Node>

  /** The folder of the checkouts, by entry name. */
  class Cache {
    var dirs: Dirs

    constructor (dirs: Dirs)
      ensures this.dirs == dirs
    {
      this.dirs := dirs;
    }
  }

  /** What one clone does: its result, and what is in the partial folder after
      it, on top of anything an earlier removal left there. */
  datatype Attempt = Attempt(cloned: bool, left: Option<Node>)

  /** The transport and the file faults of one fetch. */
  datatype Faults = Faults(attempts: nat -> Attempt, cleaned: bool, renamed: bool)

  function Partial(commit: string): string {
    commit + PARTIAL
  }

  predicate IsReady(dirs: Dirs, commit: string) {
    commit in dirs && dirs[commit].IsDir()
  }

  /** A commit is cached when a folder has its name, readable or not. */
  lemma ReadyExactly(dirs: Dirs, commit: string)
    ensures IsReady(dirs, commit) <==>
      exists node :: (commit, node) in dirs.Items && !node.File? && !node.BrokenFile?
  {
    if IsReady(dirs, commit) {
      assert (commit, dirs[commit]) in dirs.Items;
    }
  }

  function Pow2(n: nat): (p: nat)
    ensures p >= 1
  {
    if n == 0 then 1 else 2 * Pow2(n - 1)
  }

  /** The wait after this many failed clones. */
  function Backoff(failed: nat): nat
    requires failed >= 1
  {
    BACKOFF_BASE * Pow2(failed - 1)
  }

  function Left(dirs: Dirs, key: string, left: Option<Node>): Dirs {
    if left.Some? then dirs[key := left.value] else dirs - {key}
  }

  function At(dirs: Dirs, key: string): Option<Node> {
    if key in dirs then Some(dirs[key]) else None
  }

  function Renamed(dirs: Dirs, commit: string, node: Node): Dirs {
    (dirs - {Partial(commit)})[commit := node]
  }

  ghost predicate SameButPartial(before: Dirs, after: Dirs, commit: string) {
    before - {Partial(commit)} == after - {Partial(commit)}
  }

  /** Clones stop at the first that works, and at the limit. */
  ghost predicate Tried(faults: Faults, clones: nat) {
    && 1 <= clones <= MAX_FETCH_ATTEMPTS
    && (forall k: nat :: k < clones - 1 ==> !faults.attempts(k).cloned)
    && (clones < MAX_FETCH_ATTEMPTS ==> faults.attempts(clones - 1).cloned)
  }

  /** The last clone worked and its checkout is sound. */
  ghost predicate GotSound(last: Attempt) {
    last.cloned && last.left.Some? && Sound(last.left.value)
  }

  /** Fetches one commit. The process can be killed before any change it makes to
      the cache: `fuel` is how many it may make. */
  method Fetch(cache: Cache, repo: Repo, faults: Faults, fuel: Fuel)
    returns (r: Result<string, Error>, clones: nat, waited: nat)
    modifies cache
    ensures Fetched(Run(repo, faults), old(cache.dirs), cache.dirs)
    ensures fuel == Endless ==> r != Err(Killed)
    ensures IsReady(old(cache.dirs), repo.commit) ==>
      r == Ok(repo.commit) && clones == 0 && waited == 0 && cache.dirs == old(cache.dirs)
    ensures !IsReady(old(cache.dirs), repo.commit) && r != Err(Killed) ==>
      Tried(faults, clones) && waited == (if clones == 1 then 0 else if clones == 2 then 2 else 2 + 4)
    ensures !IsReady(old(cache.dirs), repo.commit) && r != Err(Killed) ==>
      (r.Ok? <==> GotSound(faults.attempts(clones - 1)) && faults.renamed && repo.commit !in old(cache.dirs))
    ensures r.Ok? && clones > 0 ==>
      (r.value == repo.commit
       && cache.dirs == Renamed(old(cache.dirs), repo.commit, faults.attempts(clones - 1).left.value))
    ensures r.Err? && r != Err(Killed) ==> SameButPartial(old(cache.dirs), cache.dirs, repo.commit)
    ensures r != Err(Killed) ==>
      ((r.Err? && r.error.FetchFailed?) <==> clones > 0 && !faults.attempts(clones - 1).cloned)
    ensures r.Err? && r.error.FetchFailed? ==>
      && r.error.repo == repo.name && r.error.attempts == clones == 3
      && At(cache.dirs, Partial(repo.commit)) == if faults.cleaned then None else faults.attempts(2).left
    ensures r.Err? && r.error.Crlf? ==>
      (r.error.repo == repo.name && clones > 0 && faults.attempts(clones - 1).left.Some?
       && exists file :: Reaches(faults.attempts(clones - 1).left.value, r.error.path, file) && IsCrlfFile(file))
  {
    if IsReady(cache.dirs, repo.commit) {
      return Ok(repo.commit), 0, 0;
    }
    r, clones, waited := FetchMissing(cache, repo, faults, fuel);
  }

  /** How a fetch of a commit that is not cached ends, when it is not killed. */
  ghost predicate Ends(repo: Repo, faults: Faults, before: Dirs, after: Dirs, r: Result<string, Error>, clones: nat) {
    && clones > 0
    && (r.Ok? <==> GotSound(faults.attempts(clones - 1)) && faults.renamed && repo.commit !in before)
    && (r.Ok? ==>
          && r.value == repo.commit
          && after == Renamed(before, repo.commit, faults.attempts(clones - 1).left.value))
    && (r.Err? ==> SameButPartial(before, after, repo.commit))
    && ((r.Err? && r.error.FetchFailed?) <==> !faults.attempts(clones - 1).cloned)
    && (r.Err? && r.error.FetchFailed? ==>
          && r.error.repo == repo.name && r.error.attempts == clones == 3
          && At(after, Partial(repo.commit)) == if faults.cleaned then None else faults.attempts(2).left)
    && (r.Err? && r.error.Crlf? ==> NamesACrlf(repo, faults.attempts(clones - 1).left, r.error))
  }

  ghost predicate NamesACrlf(repo: Repo, left: Option<Node>, error: Error)
    requires error.Crlf?
  {
    error.repo == repo.name && left.Some?
    && exists file :: Reaches(left.value, error.path, file) && IsCrlfFile(file)
  }

  /** The clones of a commit that is not cached. */
  method FetchMissing(cache: Cache, repo: Repo, faults: Faults, fuel: Fuel)
    returns (r: Result<string, Error>, clones: nat, waited: nat)
    modifies cache
    ensures Fetched(Run(repo, faults), old(cache.dirs), cache.dirs)
    ensures fuel == Endless ==> r != Err(Killed)
    ensures r != Err(Killed) ==>
      && Tried(faults, clones) && waited == (if clones == 1 then 0 else if clones == 2 then 2 else 2 + 4)
      && Ends(repo, faults, old(cache.dirs), cache.dirs, r, clones)
  {
    clones, waited := 0, 0;
    var (ready, partial) := (repo.commit, Partial(repo.commit));
    var rest := fuel;
    while clones < MAX_FETCH_ATTEMPTS
      invariant Fetching(faults, ready, old(cache.dirs), cache.dirs, clones, waited)
      invariant fuel == Endless ==> rest == Endless
      invariant clones > 0 ==> At(cache.dirs, partial) == faults.attempts(clones - 1).left
    {
      if rest == Steps(0) {
        return Err(Killed), clones, waited;
      }
      rest := rest.Spend();
      cache.dirs := cache.dirs - {partial};
      if rest == Steps(0) {
        return Err(Killed), clones, waited;
      }
      rest := rest.Spend();
      var attempt := faults.attempts(clones);
      cache.dirs := Left(cache.dirs, partial, attempt.left);
      clones := clones + 1;
      WaitsAre(clones);
      if attempt.cloned {
        ghost var mid := cache.dirs;
        r := Keep(cache, repo, faults, attempt, rest);
        if r != Err(Killed) {
          KeptEnds(repo, faults, old(cache.dirs), mid, cache.dirs, r, clones);
        }
        return;
      }
      if clones < MAX_FETCH_ATTEMPTS {
        waited := waited + Backoff(clones);
      }
    }
    if rest == Steps(0) {
      return Err(Killed), clones, waited;
    }
    if faults.cleaned {
      cache.dirs := cache.dirs - {partial};
    }
    r := Err(FetchFailed(repo.name, clones, ""));
  }

  /** A fetch whose clones all failed so far. */
  ghost predicate Fetching(faults: Faults, commit: string, before: Dirs, now: Dirs, clones: nat, waited: nat) {
    && clones <= MAX_FETCH_ATTEMPTS
    && SameButPartial(before, now, commit)
    && (forall k: nat :: k < clones ==> !faults.attempts(k).cloned)
    && waited == BACKOFF_BASE * (Pow2(Min(clones, MAX_FETCH_ATTEMPTS - 1)) - 1)
  }

  /** The waits of a fetch: none, two, and four more. */
  lemma WaitsAre(clones: nat)
    requires 1 <= clones <= 3
    ensures BACKOFF_BASE * (Pow2(clones - 1) - 1) == if clones == 1 then 0 else if clones == 2 then 2 else 2 + 4
  {
    assert Pow2(0) == 1 && Pow2(1) == 2 && Pow2(2) == 4;
  }

  /** A clone worked, after failed ones. */
  lemma KeptEnds(repo: Repo, faults: Faults, before: Dirs, mid: Dirs, after: Dirs, r: Result<string, Error>,
                 clones: nat)
    requires clones > 0 && SameButPartial(before, mid, repo.commit) && repo.commit != Partial(repo.commit)
    requires faults.attempts(clones - 1).cloned
    requires KeptWell(repo, faults, faults.attempts(clones - 1), mid, after, r) && r != Err(Killed)
    ensures Ends(repo, faults, before, after, r, clones)
  {
    assert repo.commit in before <==> repo.commit in before - {Partial(repo.commit)};
    assert repo.commit in mid <==> repo.commit in mid - {Partial(repo.commit)};
  }

  /** How moving a cloned checkout to its place ends, when it is not killed. */
  ghost predicate KeptWell(repo: Repo, faults: Faults, attempt: Attempt, before: Dirs, after: Dirs,
                           r: Result<string, Error>)
  {
    && (r.Ok? <==> attempt.left.Some? && Sound(attempt.left.value) && faults.renamed && repo.commit !in before)
    && (r.Ok? ==> r.value == repo.commit && after == Renamed(before, repo.commit, attempt.left.value))
    && (r.Err? ==> !r.error.FetchFailed? && SameButPartial(before, after, repo.commit))
    && (r.Err? && r.error.Crlf? ==> NamesACrlf(repo, attempt.left, r.error))
  }

  /** Moves a sound partial checkout to its place. */
  method Keep(cache: Cache, repo: Repo, faults: Faults, attempt: Attempt, fuel: Fuel) returns (r: Result<string, Error>)
    requires Left(cache.dirs, Partial(repo.commit), attempt.left) == cache.dirs
    modifies cache
    ensures fuel == Endless ==> r != Err(Killed)
    ensures r != Err(Killed) ==> KeptWell(repo, faults, attempt, old(cache.dirs), cache.dirs, r)
    ensures r == Err(Killed) ==>
      || SameButPartial(old(cache.dirs), cache.dirs, repo.commit)
      || (attempt.left.Some? && Sound(attempt.left.value) && repo.commit !in old(cache.dirs)
          && cache.dirs == Renamed(old(cache.dirs), repo.commit, attempt.left.value))
  {
    if attempt.left.None? {
      return Err(Io);
    }
    var found := FindCrlf(attempt.left.value);
    if found.Err? {
      return Err(Io);
    }
    if fuel == Steps(0) {
      return Err(Killed);
    }
    if found.value.Some? {
      if faults.cleaned {
        cache.dirs := cache.dirs - {Partial(repo.commit)};
      }
      return Err(Crlf(repo.name, found.value.value));
    }
    if !faults.renamed || repo.commit in cache.dirs {
      return Err(Io);
    }
    cache.dirs := Renamed(cache.dirs, repo.commit, attempt.left.value);
    if fuel.Spend() == Steps(0) {
      return Err(Killed);
    }
    r := Ok(repo.commit);
  }

  // ---- Every run of fetches.

  datatype Run = Run(repo: Repo, faults: Faults)

  /** What a fetch does to the cache, killed or not. */
  ghost predicate Fetched(run: Run, before: Dirs, after: Dirs) {
    || SameButPartial(before, after, run.repo.commit)
    || (exists k: nat ::
          && GotSound(run.faults.attempts(k))
          && run.repo.commit !in before
          && after == Renamed(before, run.repo.commit, run.faults.attempts(k).left.value))
  }

  /** A checkout came from a clone that worked, and has no CRLF text file. */
  ghost predicate FromAClone(runs: seq<Run>, commit: string, node: Node) {
    exists k, n: nat ::
      && 0 <= k < |runs|
      && runs[k].repo.commit == commit
      && GotSound(runs[k].faults.attempts(n))
      && runs[k].faults.attempts(n).left == Some(node)
  }

  ghost predicate Chain(runs: seq<Run>, states: seq<Dirs>) {
    && |states| == |runs| + 1
    && (forall k :: 0 <= k < |runs| ==> |runs[k].repo.commit| == COMMIT_HEX_LEN)
    && (forall k :: 0 <= k < |runs| ==> Fetched(runs[k], states[k], states[k + 1]))
  }

  lemma FetchAddsOnlyClones(run: Run, before: Dirs, after: Dirs, commit: string)
    requires Fetched(run, before, after) && |run.repo.commit| == |commit| && commit in after
    ensures (commit in before && before[commit] == after[commit]) || FromAClone([run], commit, after[commit])
  {
    var partial := Partial(run.repo.commit);
    assert |partial| != |commit|;
    if SameButPartial(before, after, run.repo.commit) {
      assert commit in after - {partial};
      assert commit in before - {partial} && (before - {partial})[commit] == (after - {partial})[commit];
    } else if commit == run.repo.commit {
      var k: nat :| GotSound(run.faults.attempts(k))
        && after == Renamed(before, commit, run.faults.attempts(k).left.value);
      assert [run][0] == run;
    }
  }

  /** Whatever the transport and the disk do, a checkout in the cache was there
      at the start or is a sound clone of its commit. */
  lemma {:induction false} CacheStaysClean(runs: seq<Run>, states: seq<Dirs>, commit: string)
    requires Chain(runs, states) && |commit| == COMMIT_HEX_LEN && commit in states[|runs|]
    ensures
      || (commit in states[0] && states[0][commit] == states[|runs|][commit])
      || FromAClone(runs, commit, states[|runs|][commit])
  {
    if runs != [] {
      var n := |runs| - 1;
      FetchAddsOnlyClones(runs[n], states[n], states[n + 1], commit);
      if FromAClone([runs[n]], commit, states[n + 1][commit]) {
        var k, a: nat :| 0 <= k < 1 && GotSound([runs[n]][k].faults.attempts(a))
          && [runs[n]][k].faults.attempts(a).left == Some(states[n + 1][commit]);
        assert runs[n].faults.attempts(a).left == Some(states[n + 1][commit]);
      } else {
        CacheStaysClean(runs[..n], states[..n + 1], commit);
        if FromAClone(runs[..n], commit, states[n][commit]) {
          var k, a: nat :| 0 <= k < n && runs[k].repo.commit == commit && GotSound(runs[k].faults.attempts(a))
            && runs[k].faults.attempts(a).left == Some(states[n][commit]);
        }
      }
    }
  }
}
