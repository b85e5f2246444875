/** The frozen task set (crates/code-bench/src/tasks.rs). The symbols come from
    ctags as input. A `BTreeMap` from id to task is its values in id order. */
module Tasks {
  import opened Base
  import opened Folds
  import opened Text

  const TASKS_VERSION: nat := 1
  const TASKS_PER_KIND: nat := 25

  const FNV_OFFSET: bv64 := 0xcbf2_9ce4_8422_2325
  const FNV_PRIME: bv64 := 0x0000_0100_0000_01b3
  const SPLITMIX_GAMMA: bv64 := 0x9e37_79b9_7f4a_7c15
  const SPLITMIX_MUL_A: bv64 := 0xbf58_476d_1ce4_e5b9
  const SPLITMIX_MUL_B: bv64 := 0x94d0_49bb_1331_11eb

  /** In the order of the source's `Ord`. */
  datatype SymbolKind = Function | Method | Class | Struct | Interface | Enum | Trait | Type | Constant

  const KINDS: seq<SymbolKind> := [Function, Method, Class, Struct, Interface, Enum, Trait, Type, Constant]

  datatype Symbol = Symbol(path: string, line: nat, name: string, kind: SymbolKind)

  datatype RepoSymbols = RepoSymbols(repo: string, symbols: seq<Symbol>)

  datatype Task = Task(id: string, repo: string, kind: SymbolKind, name: string, path: string, line: nat)

  datatype TaskSet = TaskSet(version: nat, seed: bv64, source: string, tasks: seq<Task>)

  datatype TaskError = DuplicateId(id: string)

  function KindName(kind: SymbolKind): string {
    match kind
    case Function => "function"
    case Method => "method"
    case Class => "class"
    case Struct => "struct"
    case Interface => "interface"
    case Enum => "enum"
    case Trait => "trait"
    case Type => "type"
    case Constant => "constant"
  }

  // ---- The seeded shuffle.

  function Mix(x: bv64): bv64 {
    var a := x + SPLITMIX_GAMMA;
    var b := (a ^ (a >> 30)) * SPLITMIX_MUL_A;
    var c := (b ^ (b >> 27)) * SPLITMIX_MUL_B;
    c ^ (c >> 31)
  }

  /** The UTF-8 bytes of a character. */
  function Utf8(c: char): (bytes: seq<nat>)
    ensures forall k :: 0 <= k < |bytes| ==> bytes[k] < 0x100
  {
    var n := c as int;
    if n < 0x80 then [n]
    else if n < 0x800 then [0xC0 + n / 0x40, 0x80 + n % 0x40]
    else if n < 0x1_0000 then [0xE0 + n / 0x1000, 0x80 + n / 0x40 % 0x40, 0x80 + n % 0x40]
    else [0xF0 + n / 0x4_0000, 0x80 + n / 0x1000 % 0x40, 0x80 + n / 0x40 % 0x40, 0x80 + n % 0x40]
  }

  /** The character that bytes stand for: the first byte tells how many follow, each
      of the others gives six bits. */
  function Decoded(bytes: seq<nat>): int
    requires bytes != []
  {
    var lead: int := if |bytes| == 1 then 0 else if |bytes| == 2 then 0xC0 else if |bytes| == 3 then 0xE0 else 0xF0;
    SixBits(bytes[0] as int - lead, bytes[1..])
  }

  function SixBits(value: int, bytes: seq<nat>): int
    decreases bytes
  {
    if bytes == [] then value else SixBits(value, bytes[..|bytes| - 1]) * 0x40 + bytes[|bytes| - 1] - 0x80
  }

  lemma SixBitsOf(value: int, a: nat, b: nat, c: nat)
    ensures SixBits(value, [a]) == value * 0x40 + a - 0x80
    ensures SixBits(value, [a, b]) == (value * 0x40 + a - 0x80) * 0x40 + b - 0x80
    ensures SixBits(value, [a, b, c]) == ((value * 0x40 + a - 0x80) * 0x40 + b - 0x80) * 0x40 + c - 0x80
  {
    assert [a][..0] == [] && [a, b][..1] == [a] && [a, b, c][..2] == [a, b];
  }

  lemma DecodedOf(lead: nat, a: nat, b: nat, c: nat)
    ensures Decoded([lead]) == lead
    ensures Decoded([lead, a]) == (lead - 0xC0) * 0x40 + a - 0x80
    ensures Decoded([lead, a, b]) == ((lead - 0xE0) * 0x40 + a - 0x80) * 0x40 + b - 0x80
    ensures Decoded([lead, a, b, c]) == (((lead - 0xF0) * 0x40 + a - 0x80) * 0x40 + b - 0x80) * 0x40 + c - 0x80
  {
    assert [lead][1..] == [] && [lead, a][1..] == [a] && [lead, a, b][1..] == [a, b];
    assert [lead, a, b, c][1..] == [a, b, c];
    SixBitsOf(lead - 0xC0, a, 0, 0);
    SixBitsOf(lead - 0xE0, a, b, 0);
    SixBitsOf(lead - 0xF0, a, b, c);
  }

  lemma SixBitParts(n: nat)
    ensures n / 0x40 * 0x40 + n % 0x40 == n
    ensures n / 0x1000 * 0x40 + n / 0x40 % 0x40 == n / 0x40
    ensures n / 0x4_0000 * 0x40 + n / 0x1000 % 0x40 == n / 0x1000
  {
    assert n / 0x1000 == n / 0x40 / 0x40 && n / 0x4_0000 == n / 0x1000 / 0x40;
  }

  /** The bytes of a character read back, in the shortest form. */
  lemma Utf8ReadsBack(c: char)
    ensures Utf8(c) != [] && Decoded(Utf8(c)) == c as int
    ensures var n := c as int;
      |Utf8(c)| == if n < 0x80 then 1 else if n < 0x800 then 2 else if n < 0x1_0000 then 3 else 4
    ensures forall k :: 0 < k < |Utf8(c)| ==> 0x80 <= Utf8(c)[k] < 0xC0
  {
    var n := c as int;
    SixBitParts(n);
    var (b, d, e) := (0x80 + n / 0x1000 % 0x40, 0x80 + n / 0x40 % 0x40, 0x80 + n % 0x40);
    if n < 0x80 {
      DecodedOf(n, 0, 0, 0);
    } else if n < 0x800 {
      DecodedOf(0xC0 + n / 0x40, e, 0, 0);
    } else if n < 0x1_0000 {
      DecodedOf(0xE0 + n / 0x1000, d, e, 0);
    } else {
      DecodedOf(0xF0 + n / 0x4_0000, b, d, e);
    }
  }

  function Wide(bytes: seq<nat>): (wide: seq<bv64>)
    requires forall k :: 0 <= k < |bytes| ==> bytes[k] < 0x100
    ensures |wide| == |bytes| && forall k :: 0 <= k < |bytes| ==> wide[k] == bytes[k] as bv64
  {
    seq(|bytes|, k requires 0 <= k < |bytes| => bytes[k] as bv64)
  }

  function Fnv(hash: bv64, bytes: seq<bv64>): bv64
    decreases bytes
  {
    if bytes == [] then hash else Fnv((hash ^ bytes[0]) * FNV_PRIME, bytes[1..])
  }

  function Absorbed(hash: bv64, c: char): bv64 {
    Fnv(hash, Wide(Utf8(c)))
  }

  /** A state after a text, character by character. */
  function Along<S>(state: S, step: (S, char) -> S, text: string): S
    decreases text
  {
    if text == "" then state else Along(step(state, text[0]), step, text[1..])
  }

  function FnvOf(hash: bv64, stream: string): bv64 {
    Along(hash, Absorbed, stream)
  }

  function StreamSeed(seed: bv64, stream: string): bv64 {
    seed ^ FnvOf(FNV_OFFSET, stream)
  }

  /** The generator is SplitMix64: its first two numbers from the seed 0. */
  lemma KnownNumbers()
    ensures Mix(0) == 0xe220_a839_7b1d_cdaf
    ensures Mix(SPLITMIX_GAMMA) == 0x6e78_9e6a_a1b9_65f4
  {
  }

  lemma LetterBytes()
    ensures Utf8('a') == [0x61] && Wide([0x61]) == [0x61]
  {
    assert (0x61 as bv64) == 0x61;
  }

  /** The hash is 64-bit FNV-1a: that of one letter. */
  lemma KnownHash(bytes: seq<bv64>)
    requires bytes == [0x61]
    ensures Fnv(FNV_OFFSET, bytes) == 0xaf63_dc4c_8601_ec8c
  {
    assert Fnv(FNV_OFFSET, bytes) == Fnv((FNV_OFFSET ^ 0x61) * FNV_PRIME, bytes[1..]);
  }

  lemma {:induction false} AlongOneMore<S>(state: S, step: (S, char) -> S, front: string, c: char)
    ensures Along(state, step, front + [c]) == step(Along(state, step, front), c)
    decreases |front|
  {
    if front == "" {
      assert ("" + [c])[1..] == "" && ("" + [c])[0] == c;
    } else {
      AlongOneMore(step(state, front[0]), step, front[1..], c);
      assert (front + [c])[1..] == front[1..] + [c];
    }
  }

  /** A label is hashed character by character, from the left. */
  lemma HashOfParts(hash: bv64, front: string, c: char)
    ensures FnvOf(hash, front + [c]) == Absorbed(FnvOf(hash, front), c)
    ensures FnvOf(hash, "") == hash
  {
    AlongOneMore(hash, Absorbed, front, c);
  }

  /** A stream starts at the seed mixed with the hash of its label. */
  lemma SeedMixesLabel(seed: bv64, stream: string)
    ensures StreamSeed(seed, stream) ^ FnvOf(FNV_OFFSET, stream) == seed
    ensures StreamSeed(0, stream) == FnvOf(FNV_OFFSET, stream)
  {
  }

  /** The partner of position `i`, from the number a generator is at. */
  function Pick(number: nat, i: nat): (j: nat)
    ensures j <= i
  {
    number % (i + 1)
  }

  function Swapped<T>(s: seq<T>, i: nat, j: nat): (r: seq<T>)
    requires i < |s| && j < |s|
    ensures |r| == |s|
  {
    s[i := s[j]][j := s[i]]
  }

  /** The swaps of positions `i` down to 1, for any generator of numbers. */
  function ShuffledFrom<T, S>(s: seq<T>, i: nat, state: S, mix: S -> S, number: S -> nat): (r: seq<T>)
    requires i < |s| || i == 0
    ensures |r| == |s|
    decreases i
  {
    if i == 0 then s
    else
      var next := mix(state);
      ShuffledFrom(Swapped(s, i, Pick(number(next), i)), i - 1, next, mix, number)
  }

  function Shuffled<T>(s: seq<T>, seed: bv64): (r: seq<T>)
    ensures |r| == |s|
  {
    ShuffledFrom(s, SatSub(|s|, 1), seed, Mix, Unsigned())
  }

  function Unsigned(): bv64 -> nat {
    (x: bv64) => x as int
  }

  method ShuffleWith<T, S>(items: array<T>, seed: S, mix: S -> S, number: S -> nat)
    modifies items
    ensures items[..] == ShuffledFrom(old(items[..]), SatSub(items.Length, 1), seed, mix, number)
  {
    var state := seed;
    var i: nat := SatSub(items.Length, 1);
    while i > 0
      invariant i < items.Length || i == 0
      invariant ShuffledFrom(items[..], i, state, mix, number)
        == ShuffledFrom(old(items[..]), SatSub(items.Length, 1), seed, mix, number)
    {
      ghost var before := items[..];
      state := mix(state);
      var j := Pick(number(state), i);
      items[i], items[j] := items[j], items[i];
      assert items[..] == Swapped(before, i, j);
      i := i - 1;
    }
  }

  method Shuffle<T>(items: array<T>, seed: bv64)
    modifies items
    ensures items[..] == Shuffled(old(items[..]), seed)
  {
    ShuffleWith(items, seed, Mix, Unsigned());
  }

  lemma SwapKeepsItems<T>(s: seq<T>, i: nat, j: nat)
    requires i < |s| && j < |s|
    ensures multiset(Swapped(s, i, j)) == multiset(s)
  {
  }

  lemma {:induction false} ShuffleFromKeepsItems<T, S>(s: seq<T>, i: nat, state: S, mix: S -> S, number: S -> nat)
    requires i < |s| || i == 0
    ensures multiset(ShuffledFrom(s, i, state, mix, number)) == multiset(s)
    decreases i
  {
    if i > 0 {
      var next := mix(state);
      var j := Pick(number(next), i);
      SwapKeepsItems(s, i, j);
      ShuffleFromKeepsItems(Swapped(s, i, j), i - 1, next, mix, number);
    }
  }

  /** The shuffle is a permutation, whatever its seed. */
  lemma ShuffleKeepsItems<T>(s: seq<T>, seed: bv64)
    ensures multiset(Shuffled(s, seed)) == multiset(s)
  {
    ShuffleFromKeepsItems(s, SatSub(|s|, 1), seed, Mix, Unsigned());
  }

  // ---- Every order can come out.

  /** A generator that draws the numbers of a list, one after the other. */
  function Rest(numbers: seq<nat>): seq<nat> {
    if numbers == [] then [] else numbers[1..]
  }

  function First(numbers: seq<nat>): nat {
    if numbers == [] then 0 else numbers[0]
  }

  lemma OneLess<T>(a: seq<T>, b: seq<T>, x: T)
    requires multiset(a + [x]) == multiset(b + [x])
    ensures multiset(a) == multiset(b)
  {
    assert multiset(a) == multiset(a + [x]) - multiset{x} && multiset(b) == multiset(b + [x]) - multiset{x};
  }

  lemma PartnerOf<T>(s: seq<T>, t: seq<T>, i: nat) returns (j: nat)
    requires i < |s| == |t| && multiset(s[..i + 1]) == multiset(t[..i + 1])
    ensures j <= i && s[j] == t[i]
    ensures multiset(Swapped(s, i, j)[..i]) == multiset(t[..i])
  {
    assert t[..i + 1] == t[..i] + [t[i]];
    j := PlaceOf(s[..i + 1], t[..i + 1], i);
    SwappedFits(s, t[..i], i, j);
  }

  lemma PlaceOf<T>(s: seq<T>, t: seq<T>, i: nat) returns (j: nat)
    requires i < |t| && multiset(s) == multiset(t)
    ensures j < |s| && s[j] == t[i]
  {
    assert t[i] in multiset(t);
    assert t[i] in s;
    j :| 0 <= j < |s| && s[j] == t[i];
  }

  lemma SwappedFits<T>(s: seq<T>, t: seq<T>, i: nat, j: nat)
    requires j <= i < |s| && multiset(s[..i + 1]) == multiset(t + [s[j]])
    ensures multiset(Swapped(s, i, j)[..i]) == multiset(t)
  {
    SwapKeepsItems(s[..i + 1], i, j);
    assert Swapped(s, i, j)[..i] + [s[j]] == Swapped(s[..i + 1], i, j);
    OneLess(Swapped(s, i, j)[..i], t, s[j]);
  }

  /** The first number of a list is passed over. */
  lemma HeadIsSkipped<T>(s: seq<T>, i: nat, head: nat, other: nat, numbers: seq<nat>)
    requires i < |s|
    ensures ShuffledFrom(s, i, [head] + numbers, Rest, First) == ShuffledFrom(s, i, [other] + numbers, Rest, First)
  {
    assert Rest([head] + numbers) == numbers == Rest([other] + numbers);
  }

  lemma OneDraw<T>(s: seq<T>, i: nat, j: nat, later: seq<nat>)
    requires 0 < i < |s| && j <= i
    ensures ShuffledFrom(s, i, [0] + ([j] + later), Rest, First) ==
      ShuffledFrom(Swapped(s, i, j), i - 1, [j] + later, Rest, First)
  {
    assert Rest([0] + ([j] + later)) == [j] + later && First([j] + later) == j;
    assert Pick(j, i) == j;
  }

  lemma OneLeft<T>(s: seq<T>, t: seq<T>)
    requires 0 < |s| == |t| && multiset(s[..1]) == multiset(t[..1]) && s[1..] == t[1..]
    ensures s == t
  {
    assert s[..1] == [s[0]] && t[..1] == [t[0]];
    assert s[0] in multiset(t[..1]);
    assert s == [s[0]] + s[1..] && t == [t[0]] + t[1..];
  }

  lemma SwappedTail<T>(s: seq<T>, t: seq<T>, i: nat, j: nat)
    requires j <= i < |s| == |t| && s[j] == t[i] && s[i + 1..] == t[i + 1..]
    ensures Swapped(s, i, j)[i..] == t[i..]
  {
    assert Swapped(s, i, j)[i..] == [t[i]] + s[i + 1..] && t[i..] == [t[i]] + t[i + 1..];
  }

  lemma DrawFirst<T>(s: seq<T>, t: seq<T>, i: nat, j: nat, later: seq<nat>)
    requires 0 < i < |s| && j <= i && ShuffledFrom(Swapped(s, i, j), i - 1, [0] + later, Rest, First) == t
    ensures ShuffledFrom(s, i, [0] + ([j] + later), Rest, First) == t
  {
    OneDraw(s, i, j, later);
    HeadIsSkipped(Swapped(s, i, j), i - 1, j, 0, later);
  }

  lemma {:induction false} Draws<T>(s: seq<T>, t: seq<T>, i: nat) returns (numbers: seq<nat>)
    requires i < |s| == |t| && multiset(s[..i + 1]) == multiset(t[..i + 1]) && s[i + 1..] == t[i + 1..]
    ensures ShuffledFrom(s, i, [0] + numbers, Rest, First) == t
    decreases i
  {
    if i == 0 {
      numbers := [];
      OneLeft(s, t);
    } else {
      var j := PartnerOf(s, t, i);
      SwappedTail(s, t, i, j);
      var later := Draws(Swapped(s, i, j), t, i - 1);
      numbers := [j] + later;
      DrawFirst(s, t, i, j, later);
    }
  }

  /** Every order of the items is the shuffle of some generator. */
  lemma EveryOrderIsReached<T>(s: seq<T>, t: seq<T>) returns (numbers: seq<nat>)
    requires multiset(s) == multiset(t)
    ensures ShuffledFrom(s, SatSub(|s|, 1), numbers, Rest, First) == t
  {
    assert |s| == |multiset(s)| == |multiset(t)| == |t|;
    numbers := [0];
    if |s| > 0 {
      var i := |s| - 1;
      assert s[..i + 1] == s && t[..i + 1] == t && s[i + 1..] == t[i + 1..];
      numbers := Draws(s, t, i);
      numbers := [0] + numbers;
    }
  }

  // ---- The pools.

  function TaskId(repo: string, kind: SymbolKind, name: string, path: string): string {
    repo + ['/'] + (KindName(kind) + ['/'] + (name + ['@'] + path))
  }

  function IdOf(repo: string, s: Symbol): string {
    TaskId(repo, s.kind, s.name, s.path)
  }

  function TaskOf(repo: string, s: Symbol): Task {
    Task(IdOf(repo, s), repo, s.kind, s.name, s.path, s.line)
  }

  /** Adds the task to the values in id order, unless its id is there. */
  function OrInsert(pool: seq<Task>, t: Task): seq<Task> {
    if pool == [] then [t]
    else
      match Lex(t.id, pool[0].id)
      case Less => [t] + pool
      case Equal => pool
      case Greater => [pool[0]] + OrInsert(pool[1..], t)
  }

  /** One task for each symbol. */
  function Candidates(repo: string, symbols: seq<Symbol>): (tasks: seq<Task>)
    ensures |tasks| == |symbols| && forall k :: 0 <= k < |tasks| ==> tasks[k] == TaskOf(repo, symbols[k])
  {
    seq(|symbols|, k requires 0 <= k < |symbols| => TaskOf(repo, symbols[k]))
  }

  /** The tasks of one kind, by id: the first task of an id wins. */
  function Pool(kind: SymbolKind, tasks: seq<Task>): seq<Task> {
    if tasks == [] then []
    else
      var (front, last) := (Pool(kind, tasks[..|tasks| - 1]), tasks[|tasks| - 1]);
      if last.kind == kind then OrInsert(front, last) else front
  }

  function PoolOf(entry: RepoSymbols, kind: SymbolKind): seq<Task> {
    Pool(kind, Candidates(entry.repo, entry.symbols))
  }

  function Label(repo: string, kind: SymbolKind): string {
    repo + ['/'] + KindName(kind)
  }

  function Truncated<T>(s: seq<T>, n: nat): seq<T> {
    if n < |s| then s[..n] else s
  }

  function Picked(entry: RepoSymbols, kind: SymbolKind, seed: bv64): seq<Task> {
    Truncated(Shuffled(PoolOf(entry, kind), StreamSeed(seed, Label(entry.repo, kind))), TASKS_PER_KIND)
  }

  function KindPicker(entry: RepoSymbols, seed: bv64): SymbolKind -> seq<Task> {
    (kind: SymbolKind) => Picked(entry, kind, seed)
  }

  function RepoTasks(entry: RepoSymbols, seed: bv64, kinds: seq<SymbolKind>): seq<Task> {
    Each(kinds, KindPicker(entry, seed))
  }

  function RepoPicker(seed: bv64, kinds: seq<SymbolKind>): RepoSymbols -> seq<Task> {
    (entry: RepoSymbols) => RepoTasks(entry, seed, kinds)
  }

  function AllTasks(repos: seq<RepoSymbols>, seed: bv64): seq<Task> {
    Each(repos, RepoPicker(seed, KINDS))
  }

  /** A stable sort by id. */
  function Sorted(tasks: seq<Task>): seq<Task> {
    if tasks == [] then [] else Placed(Sorted(tasks[..|tasks| - 1]), tasks[|tasks| - 1])
  }

  function Placed(sorted: seq<Task>, t: Task): seq<Task> {
    if sorted == [] then [t]
    else if LexLess(t.id, sorted[0].id) then [t] + sorted
    else [sorted[0]] + Placed(sorted[1..], t)
  }

  function TierOf(tiers: map<SymbolKind, seq<Task>>, kind: SymbolKind): seq<Task> {
    if kind in tiers then tiers[kind] else []
  }

  method CollectTiers(entry: RepoSymbols) returns (tiers: map<SymbolKind, seq<Task>>)
    ensures forall kind :: TierOf(tiers, kind) == PoolOf(entry, kind)
  {
    tiers := map[];
    ghost var tasks := Candidates(entry.repo, entry.symbols);
    for k := 0 to |entry.symbols|
      invariant forall kind :: TierOf(tiers, kind) == Pool(kind, tasks[..k])
    {
      assert tasks[..k + 1][..k] == tasks[..k];
      var s := entry.symbols[k];
      tiers := tiers[s.kind := OrInsert(TierOf(tiers, s.kind), TaskOf(entry.repo, s))];
    }
    assert tasks[..|entry.symbols|] == tasks;
  }

  method PickFrom(pool: seq<Task>, seed: bv64) returns (picked: seq<Task>)
    ensures picked == Truncated(Shuffled(pool, seed), TASKS_PER_KIND)
  {
    var items := new Task[|pool|](i requires 0 <= i < |pool| => pool[i]);
    assert items[..] == pool;
    Shuffle(items, seed);
    picked := Truncated(items[..], TASKS_PER_KIND);
  }

  method PickKinds(entry: RepoSymbols, seed: bv64, kinds: seq<SymbolKind>) returns (tasks: seq<Task>)
    ensures tasks == RepoTasks(entry, seed, kinds)
  {
    var tiers := CollectTiers(entry);
    tasks := [];
    ghost var picker := KindPicker(entry, seed);
    for k := 0 to |kinds|
      invariant tasks == Each(kinds[..k], picker)
    {
      EachMore(kinds, k, picker);
      var picked := PickFrom(TierOf(tiers, kinds[k]), StreamSeed(seed, Label(entry.repo, kinds[k])));
      tasks := tasks + picked;
    }
    assert kinds[..|kinds|] == kinds;
  }

  method Generate(repos: seq<RepoSymbols>, seed: bv64, source: string) returns (made: TaskSet)
    ensures made == TaskSet(TASKS_VERSION, seed, source, Sorted(AllTasks(repos, seed)))
  {
    var tasks: seq<Task> := [];
    ghost var picker := RepoPicker(seed, KINDS);
    for r := 0 to |repos|
      invariant tasks == Each(repos[..r], picker)
    {
      EachMore(repos, r, picker);
      var more := PickKinds(repos[r], seed, KINDS);
      tasks := tasks + more;
    }
    assert repos[..|repos|] == repos;
    made := TaskSet(TASKS_VERSION, seed, source, Sorted(tasks));
  }

  // ---- What a task set must hold.

  predicate DistinctIds(tasks: seq<Task>) {
    forall i, j :: 0 <= i < j < |tasks| ==> tasks[i].id != tasks[j].id
  }

  /** The duplicate check of `parse`. */
  method CheckIds(tasks: seq<Task>) returns (r: Result<(), TaskError>)
    ensures r.Ok? <==> DistinctIds(tasks)
    ensures r.Err? ==> exists i, j :: 0 <= i < j < |tasks| && tasks[i].id == tasks[j].id == r.error.id
  {
    var seen: set<string> := {};
    for k := 0 to |tasks|
      invariant DistinctIds(tasks[..k])
      invariant forall id :: id in seen <==> exists i :: 0 <= i < k && tasks[i].id == id
    {
      if tasks[k].id in seen {
        return Err(DuplicateId(tasks[k].id));
      }
      seen := seen + {tasks[k].id};
    }
    assert tasks[..|tasks|] == tasks;
    r := Ok(());
  }
}
