/** What the generator makes, stated without its maps, shuffle and sort. */
module TaskRules {
  import opened Base
  import opened Folds
  import opened Text
  import opened Tasks

  // ---- Ids.

  lemma KindNamesDiffer(a: SymbolKind, b: SymbolKind)
    requires KindName(a) == KindName(b)
    ensures a == b
  {
    var (x, y) := (KindName(a), KindName(b));
    assert |x| == |y| && x[0] == y[0];
  }

  lemma KindNameIsClean(kind: SymbolKind)
    ensures '/' !in KindName(kind)
  {
  }

  lemma HeadsAgree(a: string, b: string, rest: string, other: string)
    requires '/' !in a && '/' !in b && a + ['/'] + rest == b + ['/'] + other
    ensures a == b && rest == other
  {
    SplitFirst(a, '/', rest);
    SplitFirst(b, '/', other);
    assert a == SplitOn(a + ['/'] + rest, '/')[0] == SplitOn(b + ['/'] + other, '/')[0] == b;
    assert rest == (a + ['/'] + rest)[|a| + 1..] == (b + ['/'] + other)[|b| + 1..] == other;
  }

  /** The text starts with these parts of an id, whole. */
  predicate Opens(s: string, parts: string) {
    |parts| <= |s| && s[..|parts|] == parts && (|s| == |parts| || s[|parts|] == '/')
  }

  /** One repo name is the other one, a slash and a kind, and perhaps more parts. */
  ghost predicate Nests(outer: string, inner: string) {
    exists kind :: Opens(inner, Label(outer, kind))
  }

  ghost predicate Unnested(a: string, b: string) {
    !Nests(a, b) && !Nests(b, a)
  }

  lemma NoSlashInside(a: string, k: string, t: string, i: nat)
    requires '/' !in k && |a| < i <= |a| + |k|
    ensures (a + ['/'] + (k + ['/'] + t))[i] != '/'
  {
    assert (a + ['/'] + (k + ['/'] + t))[i] == k[i - |a| - 1];
  }

  /** Where two splits of one text at a slash differ, the later one holds the
      parts of the earlier one. */
  lemma LaterSplitOpens(a: string, k: string, t: string, b: string, u: string)
    requires '/' !in k && |a| < |b|
    requires a + ['/'] + (k + ['/'] + t) == b + ['/'] + u
    ensures Opens(b, a + ['/'] + k)
  {
    var (x, parts) := (a + ['/'] + (k + ['/'] + t), a + ['/'] + k);
    assert x == parts + ['/'] + t;
    forall i | |a| < i < |parts| ensures x[i] != '/' {
      NoSlashInside(a, k, t, i);
    }
    assert x[|b|] == '/' && b == x[..|b|];
    assert parts == x[..|parts|];
    if |parts| < |b| {
      assert b[|parts|] == x[|parts|] == '/';
    }
  }

  lemma OpensNests(inner: string, outer: string, kind: SymbolKind)
    requires Opens(inner, outer + ['/'] + KindName(kind))
    ensures Nests(outer, inner)
  {
    assert Opens(inner, Label(outer, kind));
  }

  lemma SameLength(a: string, rest: string, b: string, other: string)
    requires a + ['/'] + rest == b + ['/'] + other && |a| == |b|
    ensures a == b && rest == other
  {
    assert a == (a + ['/'] + rest)[..|a|] && b == (b + ['/'] + other)[..|b|];
    assert rest == (a + ['/'] + rest)[|a| + 1..] && other == (b + ['/'] + other)[|b| + 1..];
  }

  /** An id tells its repo, when no name nests in another, and then its kind. */
  lemma IdTellsTier(r1: string, k1: SymbolKind, n1: string, p1: string, r2: string, k2: SymbolKind, n2: string,
                    p2: string)
    requires TaskId(r1, k1, n1, p1) == TaskId(r2, k2, n2, p2)
    requires r1 == r2 || Unnested(r1, r2)
    ensures r1 == r2 && k1 == k2
  {
    var (t1, t2) := (n1 + ['@'] + p1, n2 + ['@'] + p2);
    var (rest, other) := (KindName(k1) + ['/'] + t1, KindName(k2) + ['/'] + t2);
    KindNameIsClean(k1);
    KindNameIsClean(k2);
    if |r1| < |r2| {
      LaterSplitOpens(r1, KindName(k1), t1, r2, other);
      OpensNests(r2, r1, k1);
      assert false;
    } else if |r2| < |r1| {
      LaterSplitOpens(r2, KindName(k2), t2, r1, rest);
      OpensNests(r1, r2, k2);
      assert false;
    }
    SameLength(r1, rest, r2, other);
    HeadsAgree(KindName(k1), KindName(k2), t1, t2);
    KindNamesDiffer(k1, k2);
  }

  lemma MovePart(r: string, s: string, k: string, inner: string, w: string)
    ensures r + s + (k + s + (inner + s + w)) == r + s + (k + s + inner) + s + w
  {
    assert k + s + (inner + s + w) == (k + s + inner) + (s + w);
    assert r + s + ((k + s + inner) + (s + w)) == (r + s + (k + s + inner)) + (s + w);
  }

  lemma MoveName(inner: string, s: string, o: string, name: string, at: string, path: string)
    ensures inner + s + (o + s + name) + at + path == inner + s + (o + s + (name + at + path))
  {
    assert (o + s + name) + (at + path) == o + s + (name + (at + path));
    assert name + (at + path) == name + at + path;
    assert inner + s + (o + s + name) + at + path == inner + s + ((o + s + name) + (at + path));
  }

  /** A name with more parts after the kind: the parts can move to the symbol. */
  lemma SlashesCollide(repo: string, kind: SymbolKind, inner: string, other: SymbolKind, name: string, path: string)
    ensures TaskId(repo, kind, inner + ['/'] + (KindName(other) + ['/'] + name), path)
      == TaskId(repo + ['/'] + (KindName(kind) + ['/'] + inner), other, name, path)
  {
    var (k, o) := (KindName(kind), KindName(other));
    MoveName(inner, ['/'], o, name, ['@'], path);
    MovePart(repo, ['/'], k, inner, o + ['/'] + (name + ['@'] + path));
  }

  lemma MoveKind(r: string, s: string, k: string, o: string, name: string, at: string, path: string)
    ensures r + s + (k + s + ((o + s + name) + at + path)) == (r + s + k) + s + (o + s + (name + at + path))
  {
    assert (o + s + name) + at + path == o + s + (name + at + path) by {
      assert name + at + path == name + (at + path);
      assert (o + s + name) + (at + path) == o + s + (name + (at + path));
      assert (o + s + name) + at + path == (o + s + name) + (at + path);
    }
    var w := o + s + (name + at + path);
    assert r + s + (k + s + w) == (r + s + k) + s + w;
  }

  /** A name that ends with the kind: the kind of the symbol can move to its name. */
  lemma KindsCollide(repo: string, kind: SymbolKind, other: SymbolKind, name: string, path: string)
    ensures TaskId(repo, kind, KindName(other) + ['/'] + name, path) == TaskId(Label(repo, kind), other, name, path)
  {
    MoveKind(repo, ['/'], KindName(kind), KindName(other), name, ['@'], path);
  }

  /** The name of a symbol of the outer repo that shares the id. */
  function Shadow(repo: string, kind: SymbolKind, nested: string, other: SymbolKind, name: string): string
    requires Opens(nested, Label(repo, kind))
  {
    var more := nested[|Label(repo, kind)|..];
    if more == "" then KindName(other) + ['/'] + name
    else more[1..] + ['/'] + (KindName(other) + ['/'] + name)
  }

  lemma ShadowShares(repo: string, kind: SymbolKind, nested: string, other: SymbolKind, name: string, path: string)
    requires Opens(nested, Label(repo, kind))
    ensures TaskId(repo, kind, Shadow(repo, kind, nested, other, name), path) == TaskId(nested, other, name, path)
  {
    var (opening, k) := (Label(repo, kind), KindName(kind));
    var more := nested[|opening|..];
    assert nested == opening + more;
    if more == "" {
      assert nested == opening;
      KindsCollide(repo, kind, other, name, path);
    } else {
      var inner := more[1..];
      assert more == ['/'] + inner;
      assert repo + ['/'] + k + (['/'] + inner) == repo + ['/'] + (k + ['/'] + inner);
      SlashesCollide(repo, kind, inner, other, name, path);
    }
  }

  /** Some symbols of the two repos share an id. */
  ghost predicate ShareAnId(r1: string, r2: string) {
    exists s, t :: IdOf(r1, s) == IdOf(r2, t)
  }

  lemma NestedShare(outer: string, nested: string)
    requires Nests(outer, nested)
    ensures ShareAnId(outer, nested) && ShareAnId(nested, outer)
  {
    var kind :| Opens(nested, Label(outer, kind));
    var t := Symbol("p", 1, "n", Function);
    var s := Symbol("p", 1, Shadow(outer, kind, nested, Function, t.name), kind);
    ShadowShares(outer, kind, nested, Function, t.name, t.path);
    assert IdOf(outer, s) == IdOf(nested, t);
  }

  /** Two repos can share an id exactly when one name nests in the other. */
  lemma IdsAreSharedExactly(r1: string, r2: string)
    requires r1 != r2
    ensures ShareAnId(r1, r2) <==> Nests(r1, r2) || Nests(r2, r1)
  {
    if ShareAnId(r1, r2) && Unnested(r1, r2) {
      var s, t :| IdOf(r1, s) == IdOf(r2, t);
      IdTellsTier(r1, s.kind, s.name, s.path, r2, t.kind, t.name, t.path);
    }
    if Nests(r1, r2) {
      NestedShare(r1, r2);
    }
    if Nests(r2, r1) {
      NestedShare(r2, r1);
    }
  }

  ghost predicate HasId(tasks: seq<Task>, id: string) {
    exists t :: t in tasks && t.id == id
  }

  ghost predicate Above(id: string, tasks: seq<Task>) {
    forall t :: t in tasks ==> LexLess(id, t.id)
  }

  /** In strictly increasing order of id. */
  ghost predicate Increasing(tasks: seq<Task>) {
    tasks == [] || (Above(tasks[0].id, tasks[1..]) && Increasing(tasks[1..]))
  }

  lemma AboveAll(id: string, tasks: seq<Task>)
    requires tasks != [] && Increasing(tasks) && LexLess(id, tasks[0].id)
    ensures Above(id, tasks) && !HasId(tasks, id)
  {
    forall t | t in tasks ensures LexLess(id, t.id) && t.id != id {
      if t in tasks[1..] {
        LexTransitive(id, tasks[0].id, t.id);
      }
      LexFlip(id, t.id);
    }
  }

  lemma {:induction false} IncreasingIsDistinct(tasks: seq<Task>)
    requires Increasing(tasks)
    ensures DistinctIds(tasks)
    ensures forall i, j :: 0 <= i < j < |tasks| ==> LexLess(tasks[i].id, tasks[j].id)
  {
    if tasks != [] {
      var rest := tasks[1..];
      IncreasingIsDistinct(rest);
      forall i, j | 0 <= i < j < |tasks| ensures LexLess(tasks[i].id, tasks[j].id) && tasks[i].id != tasks[j].id {
        assert tasks[j] == rest[j - 1] && rest[j - 1] in rest;
        if i > 0 {
          assert tasks[i] == rest[i - 1];
        }
        LexFlip(tasks[i].id, tasks[j].id);
      }
    }
  }

  // ---- A pool holds the first symbol of each id.

  lemma {:induction false} OrInsertAdds(pool: seq<Task>, t: Task)
    requires Increasing(pool)
    ensures HasId(pool, t.id) ==> OrInsert(pool, t) == pool
    ensures !HasId(pool, t.id) ==> |OrInsert(pool, t)| == |pool| + 1
    ensures !HasId(pool, t.id) ==> forall x :: x in OrInsert(pool, t) <==> x in pool || x == t
  {
    if pool != [] {
      var (first, rest) := (pool[0], pool[1..]);
      assert pool == [first] + rest;
      LexFlip(t.id, first.id);
      match Lex(t.id, first.id)
      case Less => AboveAll(t.id, pool);
      case Equal => assert first in pool;
      case Greater =>
        OrInsertAdds(rest, t);
        assert HasId(pool, t.id) <==> HasId(rest, t.id);
    }
  }

  lemma {:induction false} OrInsertInOrder(pool: seq<Task>, t: Task)
    requires Increasing(pool) && !HasId(pool, t.id)
    ensures Increasing(OrInsert(pool, t))
  {
    if pool != [] {
      var (first, rest) := (pool[0], pool[1..]);
      assert pool == [first] + rest;
      LexFlip(t.id, first.id);
      if Lex(t.id, first.id) == Less {
        AboveAll(t.id, pool);
        assert ([t] + pool)[1..] == pool;
      } else {
        assert first in pool;
        assert !HasId(rest, t.id);
        OrInsertInOrder(rest, t);
        OrInsertAdds(rest, t);
        assert ([first] + OrInsert(rest, t))[1..] == OrInsert(rest, t);
      }
    } else {
      assert [t][1..] == [];
    }
  }

  /** The task is the first with its id. */
  ghost predicate First(tasks: seq<Task>, t: Task) {
    exists k :: 0 <= k < |tasks| && t == tasks[k] && forall j :: 0 <= j < k ==> tasks[j].id != t.id
  }

  /** The distinct ids of one kind. */
  function Ids(kind: SymbolKind, tasks: seq<Task>): set<string> {
    if tasks == [] then {}
    else
      var last := tasks[|tasks| - 1];
      Ids(kind, tasks[..|tasks| - 1]) + if last.kind == kind then {last.id} else {}
  }

  /** The ids of one kind, as a property. */
  lemma {:induction false} IdsAreListed(kind: SymbolKind, tasks: seq<Task>, id: string)
    ensures id in Ids(kind, tasks) <==> exists t :: t in tasks && t.kind == kind && t.id == id
  {
    if tasks != [] {
      var (front, last) := (tasks[..|tasks| - 1], tasks[|tasks| - 1]);
      assert tasks == front + [last];
      IdsAreListed(kind, front, id);
    }
  }

  /** Tasks of two kinds never share an id. */
  ghost predicate KindsApart(tasks: seq<Task>) {
    forall j, k :: 0 <= j < k < |tasks| && tasks[j].id == tasks[k].id ==> tasks[j].kind == tasks[k].kind
  }

  lemma CandidatesApart(repo: string, symbols: seq<Symbol>)
    ensures KindsApart(Candidates(repo, symbols))
  {
    var tasks := Candidates(repo, symbols);
    forall j, k | 0 <= j < k < |tasks| && tasks[j].id == tasks[k].id ensures tasks[j].kind == tasks[k].kind {
      var (s, t) := (symbols[j], symbols[k]);
      IdTellsTier(repo, s.kind, s.name, s.path, repo, t.kind, t.name, t.path);
    }
  }

  /** What a pool holds of its tasks. */
  ghost predicate PoolIs(pool: seq<Task>, kind: SymbolKind, tasks: seq<Task>) {
    && Increasing(pool)
    && |pool| == |Ids(kind, tasks)|
    && (forall id :: id in Ids(kind, tasks) <==> HasId(pool, id))
    && (forall t :: t in pool ==> t.kind == kind && First(tasks, t))
  }

  lemma FirstsStay(pool: seq<Task>, front: seq<Task>, last: Task)
    requires forall t :: t in pool ==> First(front, t)
    ensures forall t :: t in pool ==> First(front + [last], t)
  {
    var all := front + [last];
    forall t | t in pool ensures First(all, t) {
      var k :| 0 <= k < |front| && t == front[k] && forall j :: 0 <= j < k ==> front[j].id != t.id;
      assert all[k] == t;
    }
  }

  lemma NewIsFirst(front: seq<Task>, last: Task)
    requires KindsApart(front + [last]) && last.id !in Ids(last.kind, front)
    ensures First(front + [last], last)
  {
    var all := front + [last];
    assert all[|front|] == last;
    IdsAreListed(last.kind, front, last.id);
    forall j | 0 <= j < |front| ensures all[j].id != last.id {
      assert front[j] in front;
    }
  }

  lemma PoolIdsTake(pool: seq<Task>, more: seq<Task>, t: Task)
    requires if HasId(pool, t.id) then more == pool else forall x :: x in more <==> x in pool || x == t
    ensures forall id :: HasId(more, id) <==> HasId(pool, id) || id == t.id
  {
    forall id ensures HasId(more, id) <==> HasId(pool, id) || id == t.id {
      if !HasId(pool, t.id) {
        assert t in more;
        if HasId(pool, id) {
          var x :| x in pool && x.id == id;
          assert x in more;
        }
      }
    }
  }

  lemma PoolTakes(pool: seq<Task>, front: seq<Task>, last: Task)
    requires KindsApart(front + [last]) && PoolIs(pool, last.kind, front)
    ensures PoolIs(OrInsert(pool, last), last.kind, front + [last])
  {
    var all := front + [last];
    assert all[..|front|] == front;
    OrInsertAdds(pool, last);
    FirstsStay(pool, front, last);
    if HasId(pool, last.id) {
      assert Ids(last.kind, all) == Ids(last.kind, front);
    } else {
      OrInsertInOrder(pool, last);
      NewIsFirst(front, last);
    }
    PoolIdsTake(pool, OrInsert(pool, last), last);
  }

  lemma PoolSkips(pool: seq<Task>, kind: SymbolKind, front: seq<Task>, last: Task)
    requires PoolIs(pool, kind, front) && last.kind != kind
    ensures PoolIs(pool, kind, front + [last])
  {
    assert (front + [last])[..|front|] == front;
    FirstsStay(pool, front, last);
  }

  /** A pool holds one task for each distinct id: the first symbol with it. */
  lemma {:induction false} PoolHoldsFirsts(kind: SymbolKind, tasks: seq<Task>)
    requires KindsApart(tasks)
    ensures PoolIs(Pool(kind, tasks), kind, tasks)
  {
    if tasks != [] {
      var (front, last) := (tasks[..|tasks| - 1], tasks[|tasks| - 1]);
      PoolHoldsFirsts(kind, front);
      assert front + [last] == tasks;
      if last.kind == kind {
        PoolTakes(Pool(kind, front), front, last);
      } else {
        PoolSkips(Pool(kind, front), kind, front, last);
      }
    }
  }

  // ---- The picked tasks of one kind.

  lemma {:induction false} ShuffleKeepsDistinct<S>(s: seq<Task>, i: nat, state: S, mix: S -> S, number: S -> nat)
    requires (i < |s| || i == 0) && DistinctIds(s)
    ensures DistinctIds(ShuffledFrom(s, i, state, mix, number))
    decreases i
  {
    if i > 0 {
      var next := mix(state);
      var t := Swapped(s, i, Pick(number(next), i));
      assert DistinctIds(t);
      ShuffleKeepsDistinct(t, i - 1, next, mix, number);
    }
  }

  lemma ShuffleKeepsMembers(s: seq<Task>, seed: bv64, t: Task)
    ensures t in Shuffled(s, seed) <==> t in s
  {
    ShuffleKeepsItems(s, seed);
    assert t in multiset(Shuffled(s, seed)) <==> t in multiset(s);
  }

  /** What the tier of one kind is: firsts of their ids, no id twice, as many as
      there are distinct ids up to the limit. */
  ghost predicate TierIs(picked: seq<Task>, repo: string, kind: SymbolKind, tasks: seq<Task>) {
    && DistinctIds(picked)
    && |picked| == Min(TASKS_PER_KIND, |Ids(kind, tasks)|)
    && forall t :: t in picked ==> t.repo == repo && t.kind == kind && OwnId(t) && First(tasks, t)
  }

  /** Every task carries the id of its repo, kind, name and path. */
  ghost predicate OwnId(t: Task) {
    t.id == TaskId(t.repo, t.kind, t.name, t.path)
  }

  lemma FirstHasOwnId(entry: RepoSymbols, t: Task)
    requires First(Candidates(entry.repo, entry.symbols), t)
    ensures t.repo == entry.repo && OwnId(t)
  {
  }

  lemma PickedIsTier(entry: RepoSymbols, kind: SymbolKind, seed: bv64)
    ensures TierIs(Picked(entry, kind, seed), entry.repo, kind, Candidates(entry.repo, entry.symbols))
  {
    var (tasks, pool) := (Candidates(entry.repo, entry.symbols), PoolOf(entry, kind));
    CandidatesApart(entry.repo, entry.symbols);
    PoolHoldsFirsts(kind, tasks);
    IncreasingIsDistinct(pool);
    forall t | t in pool ensures t.repo == entry.repo && OwnId(t) {
      FirstHasOwnId(entry, t);
    }
    ShuffledIsTier(entry.repo, kind, tasks, pool, StreamSeed(seed, Label(entry.repo, kind)));
  }

  lemma ShuffleHolds(pool: seq<Task>, seed: bv64)
    requires DistinctIds(pool)
    ensures DistinctIds(Shuffled(pool, seed))
    ensures forall t :: t in Shuffled(pool, seed) ==> t in pool
  {
    ShuffleKeepsDistinct(pool, SatSub(|pool|, 1), seed, Mix, Unsigned());
    forall t ensures t in Shuffled(pool, seed) ==> t in pool {
      ShuffleKeepsMembers(pool, seed, t);
    }
  }

  lemma TruncatedIsTier(repo: string, kind: SymbolKind, tasks: seq<Task>, shuffled: seq<Task>, limit: nat)
    requires limit == TASKS_PER_KIND && |shuffled| == |Ids(kind, tasks)| && DistinctIds(shuffled)
    requires forall t :: t in shuffled ==> t.repo == repo && t.kind == kind && OwnId(t) && First(tasks, t)
    ensures TierIs(Truncated(shuffled, limit), repo, kind, tasks)
  {
    assert forall t :: t in Truncated(shuffled, limit) ==> t in shuffled;
  }

  lemma ShuffledIsTier(repo: string, kind: SymbolKind, tasks: seq<Task>, pool: seq<Task>, seed: bv64)
    requires PoolIs(pool, kind, tasks) && DistinctIds(pool)
    requires forall t :: t in pool ==> t.repo == repo && OwnId(t)
    ensures TierIs(Truncated(Shuffled(pool, seed), TASKS_PER_KIND), repo, kind, tasks)
  {
    ShuffleHolds(pool, seed);
    TruncatedIsTier(repo, kind, tasks, Shuffled(pool, seed), TASKS_PER_KIND);
  }

  // ---- The tasks of one repo, and of all of them.

  /** How many tasks are of this repo and kind. */
  function CountTier(tasks: seq<Task>, repo: string, kind: SymbolKind): nat {
    if tasks == [] then 0
    else (if tasks[0].repo == repo && tasks[0].kind == kind then 1 else 0) + CountTier(tasks[1..], repo, kind)
  }

  lemma {:induction false} CountParts(a: seq<Task>, b: seq<Task>, repo: string, kind: SymbolKind)
    ensures CountTier(a + b, repo, kind) == CountTier(a, repo, kind) + CountTier(b, repo, kind)
  {
    if a == [] {
      assert a + b == b;
    } else {
      CountParts(a[1..], b, repo, kind);
      assert (a + b)[1..] == a[1..] + b;
    }
  }

  lemma {:induction false} CountAllOrNone(tasks: seq<Task>, matching: bool, repo: string, kind: SymbolKind)
    requires forall t :: t in tasks ==> ((t.repo == repo && t.kind == kind) <==> matching)
    ensures CountTier(tasks, repo, kind) == if matching then |tasks| else 0
  {
    if tasks != [] {
      CountAllOrNone(tasks[1..], matching, repo, kind);
    }
  }

  lemma DistinctParts(a: seq<Task>, b: seq<Task>)
    requires DistinctIds(a) && DistinctIds(b)
    requires forall x, y :: x in a && y in b ==> x.id != y.id
    ensures DistinctIds(a + b)
  {
    var all := a + b;
    forall i, j | 0 <= i < j < |all| ensures all[i].id != all[j].id {
      if i < |a| && j >= |a| {
        assert all[i] in a && all[j] in b;
      }
    }
  }

  ghost predicate KindsOnce(kinds: seq<SymbolKind>) {
    forall j, k :: 0 <= j < k < |kinds| ==> kinds[j] != kinds[k]
  }

  lemma OwnIdsApart(a: seq<Task>, b: seq<Task>)
    requires forall x :: x in a || x in b ==> OwnId(x)
    requires forall x, y :: x in a && y in b ==>
      (if x.repo == y.repo then x.kind != y.kind else Unnested(x.repo, y.repo))
    ensures forall x, y :: x in a && y in b ==> x.id != y.id
  {
    forall x, y | x in a && y in b ensures x.id != y.id {
      if x.id == y.id {
        IdTellsTier(x.repo, x.kind, x.name, x.path, y.repo, y.kind, y.name, y.path);
        assert false;
      }
    }
  }

  /** What the tasks of one repo are, for the kinds picked so far. */
  ghost predicate RepoIs(made: seq<Task>, repo: string, tasks: seq<Task>, kinds: seq<SymbolKind>) {
    && DistinctIds(made)
    && (forall t :: t in made ==> t.repo == repo && t.kind in kinds && OwnId(t) && First(tasks, t))
    && (forall kind :: CountTier(made, repo, kind)
          == if kind in kinds then Min(TASKS_PER_KIND, |Ids(kind, tasks)|) else 0)
  }

  lemma RepoTakes(made: seq<Task>, picked: seq<Task>, repo: string, tasks: seq<Task>, front: seq<SymbolKind>,
                  last: SymbolKind)
    requires RepoIs(made, repo, tasks, front) && TierIs(picked, repo, last, tasks) && last !in front
    ensures RepoIs(made + picked, repo, tasks, front + [last])
  {
    OwnIdsApart(made, picked);
    DistinctParts(made, picked);
    forall kind ensures CountTier(made + picked, repo, kind) ==
      if kind in front + [last] then Min(TASKS_PER_KIND, |Ids(kind, tasks)|) else 0
    {
      CountParts(made, picked, repo, kind);
      CountAllOrNone(picked, kind == last, repo, kind);
    }
  }

  lemma {:induction false} EachTierIsRepo(
    kinds: seq<SymbolKind>, pick: SymbolKind -> seq<Task>, repo: string, source: seq<Task>)
    requires KindsOnce(kinds) && forall kind :: TierIs(pick(kind), repo, kind, source)
    ensures RepoIs(Each(kinds, pick), repo, source, kinds)
  {
    if kinds != [] {
      var (front, last) := (kinds[..|kinds| - 1], kinds[|kinds| - 1]);
      EachTierIsRepo(front, pick, repo, source);
      assert last !in front;
      RepoTakes(Each(front, pick), pick(last), repo, source, front, last);
      assert front + [last] == kinds;
    }
  }

  lemma RepoTasksAre(entry: RepoSymbols, seed: bv64, kinds: seq<SymbolKind>, source: seq<Task>)
    requires KindsOnce(kinds) && source == Candidates(entry.repo, entry.symbols)
    ensures RepoIs(RepoTasks(entry, seed, kinds), entry.repo, source, kinds)
  {
    var pick := KindPicker(entry, seed);
    forall kind ensures TierIs(pick(kind), entry.repo, kind, source) {
      PickedIsTier(entry, kind, seed);
    }
    EachTierIsRepo(kinds, pick, entry.repo, source);
  }

  /** Repo names are distinct, and none nests in another. */
  ghost predicate CleanNames(names: seq<string>) {
    forall j, k :: 0 <= j < k < |names| ==> names[j] != names[k] && Unnested(names[j], names[k])
  }

  function NamesOf(repos: seq<RepoSymbols>): (names: seq<string>)
    ensures |names| == |repos| && forall k :: 0 <= k < |repos| ==> names[k] == repos[k].repo
  {
    seq(|repos|, k requires 0 <= k < |repos| => repos[k].repo)
  }

  ghost predicate CleanRepos(repos: seq<RepoSymbols>) {
    CleanNames(NamesOf(repos))
  }

  lemma CleanPair(repos: seq<RepoSymbols>, j: nat, k: nat)
    requires CleanRepos(repos) && j < k < |repos|
    ensures repos[j].repo != repos[k].repo && Unnested(repos[j].repo, repos[k].repo)
  {
    var names := NamesOf(repos);
    assert names[j] == repos[j].repo && names[k] == repos[k].repo;
  }

  /** The task is the first symbol of its repo with its id. */
  ghost predicate FromRepos(repos: seq<RepoSymbols>, t: Task) {
    exists k ::
      && 0 <= k < |repos|
      && t.repo == repos[k].repo
      && First(Candidates(repos[k].repo, repos[k].symbols), t)
  }

  /** What the tasks of all repos are, in any order. */
  ghost predicate AllAre(tasks: seq<Task>, repos: seq<RepoSymbols>) {
    && DistinctIds(tasks)
    && (forall t :: t in tasks ==> OwnId(t) && FromRepos(repos, t))
    && (forall k, kind :: 0 <= k < |repos| ==>
          CountTier(tasks, repos[k].repo, kind) ==
          Min(TASKS_PER_KIND, |Ids(kind, Candidates(repos[k].repo, repos[k].symbols))|))
  }

  lemma FromReposMore(front: seq<RepoSymbols>, last: RepoSymbols, tasks: seq<Task>)
    requires forall t :: t in tasks ==> FromRepos(front, t)
    ensures forall t :: t in tasks ==> FromRepos(front + [last], t)
  {
    var repos := front + [last];
    forall t | t in tasks ensures FromRepos(repos, t) {
      var k :| 0 <= k < |front| && t.repo == front[k].repo && First(Candidates(front[k].repo, front[k].symbols), t);
      assert repos[k] == front[k];
    }
  }

  lemma CountOfOthers(tasks: seq<Task>, front: seq<RepoSymbols>, repo: string, kind: SymbolKind)
    requires forall t :: t in tasks ==> FromRepos(front, t)
    requires forall k :: 0 <= k < |front| ==> front[k].repo != repo
    ensures CountTier(tasks, repo, kind) == 0
  {
    CountAllOrNone(tasks, false, repo, kind);
  }

  lemma AllCounts(tasks: seq<Task>, more: seq<Task>, front: seq<RepoSymbols>, last: RepoSymbols,
                  kinds: seq<SymbolKind>, k: nat, kind: SymbolKind)
    requires AllAre(tasks, front) && RepoIs(more, last.repo, Candidates(last.repo, last.symbols), kinds)
    requires kind in kinds
    requires forall j :: 0 <= j < |front| ==> front[j].repo != last.repo
    requires k <= |front|
    ensures var entry := (front + [last])[k];
      CountTier(tasks + more, entry.repo, kind)
        == Min(TASKS_PER_KIND, |Ids(kind, Candidates(entry.repo, entry.symbols))|)
  {
    var repos := front + [last];
    CountParts(tasks, more, repos[k].repo, kind);
    if k < |front| {
      assert repos[k] == front[k] && front[k].repo != last.repo;
      CountAllOrNone(more, false, repos[k].repo, kind);
    } else {
      CountOfOthers(tasks, front, last.repo, kind);
    }
  }

  lemma AllTake(tasks: seq<Task>, more: seq<Task>, front: seq<RepoSymbols>, last: RepoSymbols, kinds: seq<SymbolKind>)
    requires AllAre(tasks, front) && RepoIs(more, last.repo, Candidates(last.repo, last.symbols), kinds)
    requires forall kind :: kind in kinds
    requires forall j :: 0 <= j < |front| ==> front[j].repo != last.repo && Unnested(front[j].repo, last.repo)
    ensures AllAre(tasks + more, front + [last])
  {
    var repos := front + [last];
    assert repos[|front|] == last;
    FromReposMore(front, last, tasks);
    forall t | t in more ensures FromRepos(repos, t) {
      assert t.repo == repos[|front|].repo;
    }
    forall x, y | x in tasks && y in more ensures x.repo != y.repo && Unnested(x.repo, y.repo) {
      var k :| 0 <= k < |front| && x.repo == front[k].repo;
    }
    OwnIdsApart(tasks, more);
    DistinctParts(tasks, more);
    forall k, kind | 0 <= k < |repos|
      ensures CountTier(tasks + more, repos[k].repo, kind) ==
        Min(TASKS_PER_KIND, |Ids(kind, Candidates(repos[k].repo, repos[k].symbols))|)
    {
      AllCounts(tasks, more, front, last, kinds, k, kind);
    }
  }

  lemma AllKinds()
    ensures KindsOnce(KINDS) && forall kind :: kind in KINDS
  {
    forall kind ensures kind in KINDS {
      match kind
      case Function => assert KINDS[0] == kind;
      case Method => assert KINDS[1] == kind;
      case Class => assert KINDS[2] == kind;
      case Struct => assert KINDS[3] == kind;
      case Interface => assert KINDS[4] == kind;
      case Enum => assert KINDS[5] == kind;
      case Trait => assert KINDS[6] == kind;
      case Type => assert KINDS[7] == kind;
      case Constant => assert KINDS[8] == kind;
    }
  }

  lemma {:induction false} EachRepoIsAll(repos: seq<RepoSymbols>, pick: RepoSymbols -> seq<Task>,
                                         kinds: seq<SymbolKind>)
    requires CleanRepos(repos) && forall kind :: kind in kinds
    requires forall entry :: RepoIs(pick(entry), entry.repo, Candidates(entry.repo, entry.symbols), kinds)
    ensures AllAre(Each(repos, pick), repos)
  {
    if repos != [] {
      var (front, last) := (repos[..|repos| - 1], repos[|repos| - 1]);
      forall j, k | 0 <= j < k < |repos|
        ensures repos[j].repo != repos[k].repo && Unnested(repos[j].repo, repos[k].repo)
      {
        CleanPair(repos, j, k);
      }
      EachRepoIsAll(front, pick, kinds);
      AllTake(Each(front, pick), pick(last), front, last, kinds);
      assert front + [last] == repos;
    }
  }

  lemma AllTasksAre(repos: seq<RepoSymbols>, seed: bv64)
    requires CleanRepos(repos)
    ensures AllAre(AllTasks(repos, seed), repos)
  {
    var (kinds, pick) := (KINDS, RepoPicker(seed, KINDS));
    AllKinds();
    forall entry ensures RepoIs(pick(entry), entry.repo, Candidates(entry.repo, entry.symbols), kinds) {
      RepoTasksAre(entry, seed, kinds, Candidates(entry.repo, entry.symbols));
    }
    EachRepoIsAll(repos, pick, kinds);
  }

  // ---- The sort.

  lemma {:induction false} PlacedMembers(sorted: seq<Task>, t: Task, repo: string, kind: SymbolKind)
    ensures forall x :: x in Placed(sorted, t) <==> x in sorted || x == t
    ensures CountTier(Placed(sorted, t), repo, kind) == CountTier(sorted, repo, kind) + CountTier([t], repo, kind)
  {
    if sorted != [] {
      var (first, rest) := (sorted[0], sorted[1..]);
      assert sorted == [first] + rest;
      if LexLess(t.id, first.id) {
        CountParts([t], sorted, repo, kind);
      } else {
        PlacedMembers(rest, t, repo, kind);
        CountParts([first], Placed(rest, t), repo, kind);
        CountParts([first], rest, repo, kind);
      }
    }
  }

  lemma {:induction false} PlacedInOrder(sorted: seq<Task>, t: Task)
    requires Increasing(sorted) && !HasId(sorted, t.id)
    ensures Increasing(Placed(sorted, t))
  {
    if sorted == [] {
      assert [t][1..] == [];
    } else {
      var (first, rest) := (sorted[0], sorted[1..]);
      assert sorted == [first] + rest;
      LexFlip(t.id, first.id);
      if LexLess(t.id, first.id) {
        AboveAll(t.id, sorted);
        assert ([t] + sorted)[1..] == sorted;
      } else {
        assert first in sorted;
        assert !HasId(rest, t.id);
        PlacedInOrder(rest, t);
        PlacedMembers(rest, t, t.repo, t.kind);
        assert ([first] + Placed(rest, t))[1..] == Placed(rest, t);
      }
    }
  }

  lemma {:induction false} SortedMembers(tasks: seq<Task>, repo: string, kind: SymbolKind)
    ensures forall x :: x in Sorted(tasks) <==> x in tasks
    ensures CountTier(Sorted(tasks), repo, kind) == CountTier(tasks, repo, kind)
  {
    if tasks != [] {
      var (front, last) := (tasks[..|tasks| - 1], tasks[|tasks| - 1]);
      SortedMembers(front, repo, kind);
      PlacedMembers(Sorted(front), last, repo, kind);
      CountParts(front, [last], repo, kind);
      assert front + [last] == tasks;
    }
  }

  lemma {:induction false} SortedInOrder(tasks: seq<Task>)
    requires DistinctIds(tasks)
    ensures Increasing(Sorted(tasks))
  {
    if tasks != [] {
      var (front, last) := (tasks[..|tasks| - 1], tasks[|tasks| - 1]);
      SortedInOrder(front);
      SortedMembers(front, last.repo, last.kind);
      PlacedInOrder(Sorted(front), last);
    }
  }

  /** The generator is exact: ids strictly increase, every task is the first
      symbol of its repo with its id, and each repo and kind has as many tasks as
      it has distinct ids, up to the limit. */
  lemma GenerateIsExact(repos: seq<RepoSymbols>, seed: bv64)
    requires CleanRepos(repos)
    ensures var tasks := Sorted(AllTasks(repos, seed)); Increasing(tasks) && AllAre(tasks, repos)
  {
    var all := AllTasks(repos, seed);
    AllTasksAre(repos, seed);
    SortedIsExact(repos, all);
  }

  lemma SortedIsExact(repos: seq<RepoSymbols>, all: seq<Task>)
    requires AllAre(all, repos)
    ensures Increasing(Sorted(all)) && AllAre(Sorted(all), repos)
  {
    SortedInOrder(all);
    IncreasingIsDistinct(Sorted(all));
    forall repo, kind ensures CountTier(Sorted(all), repo, kind) == CountTier(all, repo, kind) {
      SortedMembers(all, repo, kind);
    }
    forall t | t in Sorted(all) ensures t in all {
      SortedMembers(all, t.repo, t.kind);
    }
  }

  /** So the duplicate check of `parse` accepts what the generator writes. */
  method GeneratedParses(repos: seq<RepoSymbols>, seed: bv64, source: string) returns (r: Result<(), TaskError>)
    requires CleanRepos(repos)
    ensures r.Ok?
  {
    var made := Generate(repos, seed, source);
    GenerateIsExact(repos, seed);
    r := CheckIds(made.tasks);
  }

  // ---- And rejects it for some symbols, when the names are not clean.

  /** How many tasks have this id. */
  function CountId(tasks: seq<Task>, id: string): nat {
    if tasks == [] then 0 else (if tasks[0].id == id then 1 else 0) + CountId(tasks[1..], id)
  }

  lemma {:induction false} CountIdParts(a: seq<Task>, b: seq<Task>, id: string)
    ensures CountId(a + b, id) == CountId(a, id) + CountId(b, id)
  {
    if a == [] {
      assert a + b == b;
    } else {
      CountIdParts(a[1..], b, id);
      assert (a + b)[1..] == a[1..] + b;
    }
  }

  lemma {:induction false} MemberCounts(tasks: seq<Task>, t: Task)
    requires t in tasks
    ensures CountId(tasks, t.id) >= 1
  {
    if tasks[0] != t {
      MemberCounts(tasks[1..], t);
    }
  }

  lemma {:induction false} DistinctCountsOnce(tasks: seq<Task>, id: string)
    requires DistinctIds(tasks)
    ensures CountId(tasks, id) <= 1
  {
    if tasks != [] {
      var rest := tasks[1..];
      DistinctCountsOnce(rest, id);
      if tasks[0].id == id {
        forall t | t in rest ensures t.id != id {
          var k :| 0 <= k < |rest| && rest[k] == t;
          assert tasks[k + 1] == t;
        }
        NoneCounts(rest, id);
      }
    }
  }

  lemma {:induction false} NoneCounts(tasks: seq<Task>, id: string)
    requires forall t :: t in tasks ==> t.id != id
    ensures CountId(tasks, id) == 0
  {
    if tasks != [] {
      assert tasks[0] in tasks;
      NoneCounts(tasks[1..], id);
    }
  }

  lemma {:induction false} PlacedCountsId(sorted: seq<Task>, t: Task, id: string)
    ensures CountId(Placed(sorted, t), id) == CountId(sorted, id) + CountId([t], id)
  {
    if sorted != [] {
      var (first, rest) := (sorted[0], sorted[1..]);
      assert sorted == [first] + rest;
      if LexLess(t.id, first.id) {
        CountIdParts([t], sorted, id);
      } else {
        PlacedCountsId(rest, t, id);
        CountIdParts([first], Placed(rest, t), id);
        CountIdParts([first], rest, id);
      }
    }
  }

  lemma {:induction false} SortedCountsId(tasks: seq<Task>, id: string)
    ensures CountId(Sorted(tasks), id) == CountId(tasks, id)
  {
    if tasks != [] {
      var (front, last) := (tasks[..|tasks| - 1], tasks[|tasks| - 1]);
      SortedCountsId(front, id);
      PlacedCountsId(Sorted(front), last, id);
      CountIdParts(front, [last], id);
      assert front + [last] == tasks;
    }
  }

  lemma {:induction false} EachCounts(repos: seq<RepoSymbols>, pick: RepoSymbols -> seq<Task>, k: nat, id: string)
    requires k < |repos|
    ensures CountId(Each(repos, pick), id) >= CountId(pick(repos[k]), id)
  {
    var (front, last) := (repos[..|repos| - 1], repos[|repos| - 1]);
    CountIdParts(Each(front, pick), pick(last), id);
    if k < |front| {
      EachCounts(front, pick, k, id);
    }
  }

  lemma {:induction false} TwoCount(repos: seq<RepoSymbols>, pick: RepoSymbols -> seq<Task>, j: nat, k: nat, id: string)
    requires j < k < |repos|
    ensures CountId(Each(repos, pick), id) >= CountId(pick(repos[j]), id) + CountId(pick(repos[k]), id)
  {
    var (front, last) := (repos[..|repos| - 1], repos[|repos| - 1]);
    CountIdParts(Each(front, pick), pick(last), id);
    if k < |front| {
      TwoCount(front, pick, j, k, id);
    } else {
      EachCounts(front, pick, j, id);
    }
  }

  lemma {:induction false} CountedIsThere(tasks: seq<Task>, repo: string, kind: SymbolKind) returns (t: Task)
    requires CountTier(tasks, repo, kind) > 0
    ensures t in tasks && t.repo == repo && t.kind == kind
  {
    if tasks[0].repo == repo && tasks[0].kind == kind {
      t := tasks[0];
    } else {
      t := CountedIsThere(tasks[1..], repo, kind);
    }
  }

  /** The task of the only symbol of a repo is always picked. */
  lemma OnlySymbolIsPicked(entry: RepoSymbols, s: Symbol, seed: bv64, kinds: seq<SymbolKind>)
    requires entry.symbols == [s] && KindsOnce(kinds) && s.kind in kinds
    ensures CountId(RepoTasks(entry, seed, kinds), IdOf(entry.repo, s)) >= 1
  {
    var source := Candidates(entry.repo, entry.symbols);
    RepoTasksAre(entry, seed, kinds, source);
    OnlyTaskCounts(RepoTasks(entry, seed, kinds), entry.repo, source, kinds, TaskOf(entry.repo, s));
  }

  lemma OnlyTaskCounts(made: seq<Task>, repo: string, source: seq<Task>, kinds: seq<SymbolKind>, only: Task)
    requires RepoIs(made, repo, source, kinds) && source == [only] && only.kind in kinds
    ensures CountId(made, only.id) >= 1
  {
    assert source[..0] == [];
    assert Ids(only.kind, source) == {only.id};
    var t := CountedIsThere(made, repo, only.kind);
    assert First(source, t);
    MemberCounts(made, t);
  }

  /** Two repos whose only symbols share an id. */
  lemma SharedIdIsRepeated(repos: seq<RepoSymbols>, seed: bv64, j: nat, k: nat, s: Symbol, t: Symbol)
    requires j < k < |repos| && repos[j].symbols == [s] && repos[k].symbols == [t]
    requires IdOf(repos[j].repo, s) == IdOf(repos[k].repo, t)
    ensures !DistinctIds(Sorted(AllTasks(repos, seed)))
  {
    var (id, kinds) := (IdOf(repos[j].repo, s), KINDS);
    AllKinds();
    OnlySymbolIsPicked(repos[j], s, seed, kinds);
    OnlySymbolIsPicked(repos[k], t, seed, kinds);
    TwoCount(repos, RepoPicker(seed, kinds), j, k, id);
    SortedCountsId(AllTasks(repos, seed), id);
    if DistinctIds(Sorted(AllTasks(repos, seed))) {
      DistinctCountsOnce(Sorted(AllTasks(repos, seed)), id);
    }
  }

  /** The repos of these names, with one symbol in each of two of them. */
  function TwoSymbols(names: seq<string>, j: nat, k: nat, s: Symbol, t: Symbol): (repos: seq<RepoSymbols>)
    ensures NamesOf(repos) == names
  {
    var repos := seq(|names|, m requires 0 <= m < |names| =>
      RepoSymbols(names[m], if m == j then [s] else if m == k then [t] else []));
    assert NamesOf(repos) == names;
    repos
  }

  /** Generated ids are unique, for all symbols, exactly when the repo names are
      distinct and none is another one, a slash and a kind, and perhaps more
      parts. */
  lemma GeneratedIdsAreUniqueExactly(names: seq<string>, seed: bv64)
    ensures CleanNames(names) <==>
      forall repos :: NamesOf(repos) == names ==> DistinctIds(Sorted(AllTasks(repos, seed)))
  {
    if CleanNames(names) {
      forall repos | NamesOf(repos) == names ensures DistinctIds(Sorted(AllTasks(repos, seed))) {
        GenerateIsExact(repos, seed);
      }
    } else {
      var j, k :| 0 <= j < k < |names| && (names[j] == names[k] || !Unnested(names[j], names[k]));
      SomeShare(names[j], names[k]);
      var s, t :| IdOf(names[j], s) == IdOf(names[k], t);
      var repos := TwoSymbols(names, j, k, s, t);
      SharedIdIsRepeated(repos, seed, j, k, s, t);
    }
  }

  lemma SomeShare(a: string, b: string)
    requires a == b || !Unnested(a, b)
    ensures ShareAnId(a, b)
  {
    if a == b {
      var s := Symbol("p", 1, "n", Function);
      assert IdOf(a, s) == IdOf(b, s);
    } else if Nests(a, b) {
      NestedShare(a, b);
    } else {
      NestedShare(b, a);
    }
  }

  /** Two repos whose generated set the duplicate check rejects. */
  method RejectedSet(seed: bv64, source: string) returns (r: Result<(), TaskError>)
    ensures r.Err?
  {
    var (outer, nested) := ("a", "a/function");
    var (s, t) := (Symbol("p", 1, "function/n", Function), Symbol("p", 1, "n", Function));
    assert nested == Label(outer, Function);
    KindsCollide(outer, Function, Function, "n", "p");
    var repos := [RepoSymbols(outer, [s]), RepoSymbols(nested, [t])];
    SharedIdIsRepeated(repos, seed, 0, 1, s, t);
    var made := Generate(repos, seed, source);
    r := CheckIds(made.tasks);
  }
}
