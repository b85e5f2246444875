/** Branch slugs and the re-split of a Segment (crates/cli/src/segment.rs). What
    git measures, and whether its commands work, are inputs. */
module Segment {
  import opened Base

  const SLUG_MAX: nat := 40

  predicate IsLowerOrDigit(c: char) {
    'a' <= c <= 'z' || '0' <= c <= '9'
  }

  predicate IsUpper(c: char) {
    'A' <= c <= 'Z'
  }

  function Lower(c: char): char
    requires IsUpper(c) || IsLowerOrDigit(c)
  {
    if IsUpper(c) then c + 32 as char else c
  }

  const LOWER := "abcdefghijklmnopqrstuvwxyz"
  const UPPER := "ABCDEFGHIJKLMNOPQRSTUVWXYZ"

  /** The ASCII letters and digits are kept, upper case as lower case. */
  lemma KeptCharacters(c: char)
    ensures IsUpper(c) <==> c in UPPER
    ensures IsLowerOrDigit(c) <==> c in LOWER || c in "0123456789"
  {
  }

  lemma LoweredCharacters(k: nat)
    requires k < 26
    ensures IsUpper(UPPER[k]) && Lower(UPPER[k]) == LOWER[k] && IsLowerOrDigit(LOWER[k]) && Lower(LOWER[k]) == LOWER[k]
  {
  }

  predicate EndsInDash(s: string) {
    s != "" && s[|s| - 1] == '-'
  }

  /** What one character adds. */
  function Pushed(out: string, c: char): string {
    if IsUpper(c) || IsLowerOrDigit(c) then out + [Lower(c)]
    else if !EndsInDash(out) then out + ['-']
    else out
  }

  function Dashed(title: string): string {
    if title == "" then "" else Pushed(Dashed(title[..|title| - 1]), title[|title| - 1])
  }

  function Cut(s: string): string {
    if |s| > SLUG_MAX then s[..SLUG_MAX] else s
  }

  function TrimLeft(s: string): string {
    if s != "" && s[0] == '-' then TrimLeft(s[1..]) else s
  }

  function TrimRight(s: string): string {
    if EndsInDash(s) then TrimRight(s[..|s| - 1]) else s
  }

  function SlugOf(title: string): string {
    TrimRight(TrimLeft(Cut(Dashed(title))))
  }

  method Slug(title: string) returns (r: string)
    ensures r == SlugOf(title)
  {
    r := "";
    for k := 0 to |title|
      invariant r == Dashed(title[..k])
    {
      assert title[..k + 1][..k] == title[..k];
      var c := title[k];
      if IsUpper(c) || IsLowerOrDigit(c) {
        r := r + [Lower(c)];
      } else if !EndsInDash(r) {
        r := r + ['-'];
      }
    }
    assert title[..|title|] == title;
    r := TrimRight(TrimLeft(Cut(r)));
  }

  /** Lower-case letters, digits and single dashes. */
  ghost predicate IsDashed(s: string) {
    && (forall k :: 0 <= k < |s| ==> IsLowerOrDigit(s[k]) || s[k] == '-')
    && (forall k :: 0 < k < |s| ==> s[k - 1] != '-' || s[k] != '-')
  }

  /** The form of a slug: dashed, bounded and without a dash at an edge. */
  ghost predicate IsSlug(s: string) {
    && IsDashed(s)
    && |s| <= SLUG_MAX
    && (s != "" ==> s[0] != '-' && s[|s| - 1] != '-')
  }

  lemma {:induction false} DashedIsDashed(title: string)
    ensures IsDashed(Dashed(title))
  {
    if title != "" {
      DashedIsDashed(title[..|title| - 1]);
    }
  }

  lemma {:induction false} DashedKeeps(s: string)
    requires IsDashed(s)
    ensures Dashed(s) == s
  {
    if s != "" {
      var (front, c) := (s[..|s| - 1], s[|s| - 1]);
      DashedKeeps(front);
      assert s == front + [c];
    }
  }

  lemma {:induction false} TrimLeftIsPart(s: string)
    requires IsDashed(s)
    ensures IsDashed(TrimLeft(s)) && |TrimLeft(s)| <= |s|
    ensures TrimLeft(s) != "" ==> TrimLeft(s)[0] != '-'
  {
    if s != "" && s[0] == '-' {
      TrimLeftIsPart(s[1..]);
    }
  }

  lemma {:induction false} TrimRightIsPart(s: string)
    requires IsDashed(s)
    ensures IsDashed(TrimRight(s)) && TrimRight(s) <= s
    ensures !EndsInDash(TrimRight(s))
  {
    if EndsInDash(s) {
      TrimRightIsPart(s[..|s| - 1]);
    }
  }

  /** Every slug has the form. */
  lemma SlugHasForm(title: string)
    ensures IsSlug(SlugOf(title))
  {
    DashedIsDashed(title);
    var cut := Cut(Dashed(title));
    assert IsDashed(cut);
    TrimLeftIsPart(cut);
    TrimRightIsPart(TrimLeft(cut));
  }

  /** The slugs are exactly the texts the function leaves alone, so it is
      idempotent. */
  lemma SlugIsNormalForm(s: string)
    ensures SlugOf(s) == s <==> IsSlug(s)
    ensures SlugOf(SlugOf(s)) == SlugOf(s)
  {
    SlugHasForm(s);
    SlugFixes(SlugOf(s));
    if IsSlug(s) {
      SlugFixes(s);
    }
  }

  lemma SlugFixes(s: string)
    requires IsSlug(s)
    ensures SlugOf(s) == s
  {
    DashedKeeps(s);
  }

  // ---- The split point.

  datatype Commit = Commit(sha: string, lines: nat)

  /** The last commit before the first one over the limit. */
  function PickSplit(cumulative: seq<Commit>, limit: nat): Option<string> {
    if cumulative == [] || cumulative[0].lines > limit then None
    else
      match PickSplit(cumulative[1..], limit)
      case Some(sha) => Some(sha)
      case None => Some(cumulative[0].sha)
  }

  /** How many commits come before the first one over the limit. */
  function Fitting(cumulative: seq<Commit>, limit: nat): (n: nat)
    ensures n <= |cumulative|
    ensures forall k :: 0 <= k < n ==> cumulative[k].lines <= limit
    ensures n < |cumulative| ==> cumulative[n].lines > limit
  {
    if cumulative == [] || cumulative[0].lines > limit then 0 else 1 + Fitting(cumulative[1..], limit)
  }

  lemma {:induction false} SplitIsLastFitting(cumulative: seq<Commit>, limit: nat)
    ensures PickSplit(cumulative, limit) ==
      if Fitting(cumulative, limit) == 0 then None else Some(cumulative[Fitting(cumulative, limit) - 1].sha)
  {
    if cumulative != [] && cumulative[0].lines <= limit {
      SplitIsLastFitting(cumulative[1..], limit);
    }
  }

  /** This commit is the newest one within the limit. */
  ghost predicate Newest(cumulative: seq<Commit>, limit: nat, k: nat) {
    && k < |cumulative|
    && cumulative[k].lines <= limit
    && forall j :: k < j < |cumulative| ==> cumulative[j].lines > limit
  }

  /** The split is the newest commit within the limit exactly when no later commit
      shrinks back under it once one was over. */
  lemma SplitIsNewestExactly(cumulative: seq<Commit>, limit: nat)
    requires forall j, k :: 0 <= j < k < |cumulative| ==> cumulative[j].sha != cumulative[k].sha
    ensures (forall k: nat :: Newest(cumulative, limit, k) ==> PickSplit(cumulative, limit) == Some(cumulative[k].sha))
      <==> forall j, k :: 0 <= j < k < |cumulative| && cumulative[j].lines > limit ==> cumulative[k].lines > limit
  {
    SplitIsLastFitting(cumulative, limit);
    var n := Fitting(cumulative, limit);
    if j, k :| 0 <= j < k < |cumulative| && cumulative[j].lines > limit && cumulative[k].lines <= limit {
      var last := LastWithin(cumulative, limit, k);
      assert Newest(cumulative, limit, last) && last >= k > j >= n;
    }
  }

  lemma LastWithin(cumulative: seq<Commit>, limit: nat, k: nat) returns (last: nat)
    requires k < |cumulative| && cumulative[k].lines <= limit
    ensures k <= last && Newest(cumulative, limit, last)
  {
    last := |cumulative| - 1;
    while cumulative[last].lines > limit
      invariant k <= last < |cumulative|
      invariant forall j :: last < j < |cumulative| ==> cumulative[j].lines > limit
      decreases last
    {
      last := last - 1;
    }
  }

  // ---- The re-split.

  type Branches = map<string, string>

  datatype Head = On(branch: string) | Detached(sha: string)

  datatype Outcome = Fits | Split(sha: string, trimmed: string, excess: string)

  /** What git answers: the changed lines of HEAD, and the commits of the Segment,
      oldest first, with their cumulative changed lines. A step it fails is none
      or false. */
  datatype GitFacts = GitFacts(total: Option<nat>, commits: Option<seq<Commit>>, renames: bool, switches: bool)

  class Repo {
    var branches: Branches
    var head: Head

    constructor (branches: Branches, head: Head)
      ensures this.branches == branches && this.head == head
    {
      this.branches, this.head := branches, head;
    }

    ghost predicate Valid()
      reads this
    {
      head.On? ==> head.branch in branches
    }

    /** `git branch -m`: HEAD follows the branch it is on. */
    method Rename(from: string, to: string, works: bool) returns (ok: bool)
      modifies this
      ensures ok <==> works && from in old(branches) && (to == from || to !in old(branches))
      ensures branches == if ok then (old(branches) - {from})[to := old(branches)[from]] else old(branches)
      ensures head == if ok && old(head) == On(from) then On(to) else old(head)
    {
      ok := works && from in branches && (to == from || to !in branches);
      if ok {
        branches := (branches - {from})[to := branches[from]];
        if head == On(from) {
          head := On(to);
        }
      }
    }

    /** `git switch -c` at a commit. */
    method SwitchNew(name: string, sha: string, works: bool) returns (ok: bool)
      modifies this
      ensures ok <==> works && name !in old(branches)
      ensures branches == if ok then old(branches)[name := sha] else old(branches)
      ensures head == if ok then On(name) else old(head)
    {
      ok := works && name !in branches;
      if ok {
        branches, head := branches[name := sha], On(name);
      }
    }

    /** Cuts a Segment over the limit at the last commit in front of the first one
        that is over: the branch is renamed to hold the whole run, and its name is
        made again at the cut. No branch tip is lost, whatever happens. */
    method Resplit(facts: GitFacts, excess: string, limit: nat) returns (r: Result<Outcome, ()>)
      requires Valid()
      modifies this
      ensures Valid()
      ensures forall sha :: sha in old(branches).Values ==> sha in branches.Values
      ensures forall b :: b in old(branches) && old(head) != On(b) ==> b in branches && branches[b] == old(branches)[b]
      ensures r == Ok(Fits) <==> facts.total.Some? && facts.total.value <= limit
      ensures r == Ok(Fits) ==> branches == old(branches) && head == old(head)
      ensures (r.Ok? && r.value.Split?) <==>
        && facts.total.Some? && facts.total.value > limit
        && facts.commits.Some? && PickSplit(facts.commits.value, limit).Some?
        && old(head).On? && excess !in old(branches)
        && facts.renames && facts.switches
      ensures r.Ok? && r.value.Split? ==>
        var name := old(head).branch;
        && r.value == Split(PickSplit(facts.commits.value, limit).value, name, excess)
        && branches == old(branches)[excess := old(branches)[name]][name := r.value.sha]
        && head == On(name)
        && exists k :: 0 <= k < |facts.commits.value| && facts.commits.value[k].sha == r.value.sha
                    && facts.commits.value[k].lines <= limit
    {
      if facts.total.None? {
        return Err(());
      }
      if facts.total.value <= limit {
        return Ok(Fits);
      }
      if facts.commits.None? {
        return Err(());
      }
      var split := PickSplit(facts.commits.value, limit);
      SplitIsLastFitting(facts.commits.value, limit);
      if split.None? || head.Detached? {
        return Err(());
      }
      var current := head.branch;
      ghost var before := branches;
      var renamed := Rename(current, excess, facts.renames);
      if !renamed {
        return Err(());
      }
      ghost var between := branches;
      RenameKeepsTips(before, current, excess);
      var switched := SwitchNew(current, split.value, facts.switches);
      if !switched {
        return Err(());
      }
      SwitchKeepsTips(between, current, split.value);
      r := Ok(Split(split.value, current, excess));
    }
  }

  lemma RenameKeepsTips(branches: Branches, from: string, to: string)
    requires from in branches && (to == from || to !in branches)
    ensures forall sha :: sha in branches.Values ==> sha in (branches - {from})[to := branches[from]].Values
  {
    var after := (branches - {from})[to := branches[from]];
    forall sha | sha in branches.Values ensures sha in after.Values {
      var b :| b in branches && branches[b] == sha;
      var now := if b == from then to else b;
      assert now in after && after[now] == sha;
    }
  }

  lemma SwitchKeepsTips(branches: Branches, name: string, sha: string)
    requires name !in branches
    ensures forall tip :: tip in branches.Values ==> tip in branches[name := sha].Values
  {
    forall tip | tip in branches.Values ensures tip in branches[name := sha].Values {
      var b :| b in branches && branches[b] == tip;
      assert b in branches[name := sha] && branches[name := sha][b] == tip;
    }
  }
}
