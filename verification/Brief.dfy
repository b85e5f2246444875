/** The Work Unit sections of a plan and the fact block of a brief
    (crates/cli/src/brief.rs). */
module Brief {
  import opened Base
  import opened Text

  /** The id, the title and the text of a section that starts at a Work Unit. */
  datatype Wu = Wu(id: string, title: string, section: string)

  function TrimStart(s: string): string {
    if s != "" && IsSpace(s[0]) then TrimStart(s[1..]) else s
  }

  function TrimEnd(s: string): string {
    if s != "" && IsSpace(s[|s| - 1]) then TrimEnd(s[..|s| - 1]) else s
  }

  function Trim(s: string): string {
    TrimEnd(TrimStart(s))
  }

  /** A line without the return of a CRLF end. */
  function WithoutReturn(line: string): string {
    if line != "" && line[|line| - 1] == '\r' then line[..|line| - 1] else line
  }

  /** Every line but the last had an end. */
  function Ended(parts: seq<string>): seq<string> {
    if |parts| == 0 then []
    else if |parts| == 1 then (if parts[0] == "" then [] else parts)
    else [WithoutReturn(parts[0])] + Ended(parts[1..])
  }

  function Lines(plan: string): seq<string> {
    Ended(SplitOn(plan, '\n'))
  }

  function Hashes(line: string): nat {
    if line != "" && line[0] == '#' then 1 + Hashes(line[1..]) else 0
  }

  datatype HeadingLine = HeadingLine(level: nat, text: string)

  lemma {:induction false} HashesFit(line: string)
    ensures Hashes(line) <= |line|
  {
    if line != "" && line[0] == '#' {
      HashesFit(line[1..]);
    }
  }

  function Heading(line: string): Option<HeadingLine> {
    HashesFit(line);
    var n := Hashes(line);
    if n > 0 && n < |line| && line[n] == ' ' then Some(HeadingLine(n, Trim(line[n..]))) else None
  }

  predicate IsIdChar(c: char) {
    'a' <= c <= 'z' || 'A' <= c <= 'Z' || '0' <= c <= '9' || c == '.'
  }

  function IdLength(s: string): (n: nat)
    ensures n <= |s|
  {
    if s != "" && IsIdChar(s[0]) then 1 + IdLength(s[1..]) else 0
  }

  function SkipMarks(s: string): string {
    if s != "" && s[0] in {':', '-', ' ', '\t'} then SkipMarks(s[1..]) else s
  }

  const WU_PREFIX := "WU-"

  /** `WU-3: Title` to its id and title. */
  function SplitWu(text: string): Option<(string, string)> {
    if |text| < |WU_PREFIX| || text[..|WU_PREFIX|] != WU_PREFIX then None
    else
      var rest := text[|WU_PREFIX|..];
      var n := IdLength(rest);
      if n == 0 then None else Some((WU_PREFIX + rest[..n], Trim(SkipMarks(rest[n..]))))
  }

  /** The level of a heading that starts a Work Unit. */
  function WuLevel(line: string): Option<nat> {
    match Heading(line)
    case Some(h) => if 3 <= h.level <= 4 && SplitWu(h.text).Some? then Some(h.level) else None
    case None => None
  }

  /** A heading of this level or a higher one. */
  predicate Closes(line: string, level: nat) {
    Heading(line).Some? && Heading(line).value.level <= level
  }

  /** How lines are read: the level of a line that starts a Work Unit, and
      whether a line ends a section of a level. */
  datatype Rules = Rules(wu: string -> Option<nat>, closes: (string, nat) -> bool)

  function PlanRules(): Rules {
    Rules(WuLevel, Closes)
  }

  /** The lines of one section, up to but without `end`. */
  datatype Range = Range(start: nat, end: nat)

  function EndFrom(rules: Rules, lines: seq<string>, level: nat, at: nat): (end: nat)
    requires at <= |lines|
    ensures at <= end <= |lines|
    decreases |lines| - at
  {
    if at < |lines| && !rules.closes(lines[at], level) then EndFrom(rules, lines, level, at + 1) else at
  }

  function SectionsFrom(rules: Rules, lines: seq<string>, i: nat): seq<Range>
    requires i <= |lines|
    decreases |lines| - i
  {
    if i == |lines| then []
    else
      match rules.wu(lines[i])
      case None => SectionsFrom(rules, lines, i + 1)
      case Some(level) =>
        var end := EndFrom(rules, lines, level, i + 1);
        [Range(i, end)] + SectionsFrom(rules, lines, end)
  }

  /** A section starts at a Work Unit heading and ends just before the first
      later heading of the same or a higher level, or at the end. */
  ghost predicate IsSection(rules: Rules, lines: seq<string>, r: Range) {
    && r.start < r.end <= |lines|
    && rules.wu(lines[r.start]).Some?
    && (forall k :: r.start < k < r.end ==> !rules.closes(lines[k], rules.wu(lines[r.start]).value))
    && (r.end < |lines| ==> rules.closes(lines[r.end], rules.wu(lines[r.start]).value))
  }

  ghost predicate AreSections(rules: Rules, lines: seq<string>, ranges: seq<Range>, from: nat) {
    && (forall k :: 0 <= k < |ranges| ==> IsSection(rules, lines, ranges[k]) && from <= ranges[k].start)
    && (forall j, k :: 0 <= j < k < |ranges| ==> ranges[j].end <= ranges[k].start)
  }

  /** The line starts a section or lies inside one. */
  ghost predicate InSection(ranges: seq<Range>, line: nat) {
    exists k :: 0 <= k < |ranges| && ranges[k].start <= line < ranges[k].end
  }

  lemma {:induction false} EndIsFirst(rules: Rules, lines: seq<string>, level: nat, at: nat)
    requires at <= |lines|
    ensures var end := EndFrom(rules, lines, level, at);
      (forall k :: at <= k < end ==> !rules.closes(lines[k], level))
        && (end < |lines| ==> rules.closes(lines[end], level))
    decreases |lines| - at
  {
    if at < |lines| && !rules.closes(lines[at], level) {
      EndIsFirst(rules, lines, level, at + 1);
    }
  }

  lemma OneMore(rules: Rules, lines: seq<string>, first: Range, rest: seq<Range>, from: nat)
    requires IsSection(rules, lines, first) && from <= first.start && AreSections(rules, lines, rest, first.end)
    ensures AreSections(rules, lines, [first] + rest, from)
  {
    var all := [first] + rest;
    forall k | 0 <= k < |all| ensures IsSection(rules, lines, all[k]) && from <= all[k].start {
      if k > 0 {
        assert all[k] == rest[k - 1];
      }
    }
  }

  lemma InOneMore(first: Range, rest: seq<Range>, i: nat)
    requires InSection(rest, i) || first.start <= i < first.end
    ensures InSection([first] + rest, i)
  {
    var all := [first] + rest;
    if first.start <= i < first.end {
      assert all[0] == first;
    } else {
      var k :| 0 <= k < |rest| && rest[k].start <= i < rest[k].end;
      assert all[k + 1] == rest[k];
    }
  }

  lemma SectionFirst(rules: Rules, lines: seq<string>, r: Range)
    requires r.start < |lines| && rules.wu(lines[r.start]).Some?
    requires r.end == EndFrom(rules, lines, rules.wu(lines[r.start]).value, r.start + 1)
    ensures IsSection(rules, lines, r) && SectionsFrom(rules, lines, r.start) == [r] + SectionsFrom(rules, lines, r.end)
  {
    EndIsFirst(rules, lines, rules.wu(lines[r.start]).value, r.start + 1);
  }

  /** The sections are disjoint and in file order, and no Work Unit heading is
      outside of them. */
  lemma {:induction false} SectionsAreExact(rules: Rules, lines: seq<string>, i: nat)
    requires i <= |lines|
    ensures AreSections(rules, lines, SectionsFrom(rules, lines, i), i)
    ensures forall k :: i <= k < |lines| && rules.wu(lines[k]).Some? ==> InSection(SectionsFrom(rules, lines, i), k)
    decreases |lines| - i
  {
    if i < |lines| {
      if rules.wu(lines[i]).None? {
        SectionsAreExact(rules, lines, i + 1);
      } else {
        var end := EndFrom(rules, lines, rules.wu(lines[i]).value, i + 1);
        var (first, rest) := (Range(i, end), SectionsFrom(rules, lines, end));
        SectionFirst(rules, lines, first);
        SectionsAreExact(rules, lines, end);
        OneMore(rules, lines, first, rest, i);
        forall k | i <= k < |lines| && rules.wu(lines[k]).Some? ensures InSection([first] + rest, k) {
          InOneMore(first, rest, k);
        }
      }
    }
  }

  /** The sections of a plan: disjoint, in file order, each from a Work Unit
      heading of level 3 or 4 to just before the first later heading of the same
      or a higher level, and together over every such Work Unit heading. */
  lemma PlanSectionsAreExact(plan: string)
    ensures var (lines, ranges) := (Lines(plan), SectionsFrom(PlanRules(), Lines(plan), 0));
      && (forall k :: 0 <= k < |ranges| ==>
            && ranges[k].start < ranges[k].end <= |lines|
            && WuLevel(lines[ranges[k].start]).Some?
            && (forall m :: ranges[k].start < m < ranges[k].end ==>
              !Closes(lines[m], WuLevel(lines[ranges[k].start]).value))
            && (ranges[k].end < |lines| ==> Closes(lines[ranges[k].end], WuLevel(lines[ranges[k].start]).value)))
      && (forall j, k :: 0 <= j < k < |ranges| ==> ranges[j].end <= ranges[k].start)
      && (forall m :: 0 <= m < |lines| && WuLevel(lines[m]).Some? ==> InSection(ranges, m))
  {
    var (rules, lines) := (PlanRules(), Lines(plan));
    SectionsAreExact(rules, lines, 0);
    ReadAsPlan(rules, lines, SectionsFrom(rules, lines, 0));
  }

  lemma ReadAsPlan(rules: Rules, lines: seq<string>, ranges: seq<Range>)
    requires rules == PlanRules() && AreSections(rules, lines, ranges, 0)
    ensures forall k :: 0 <= k < |ranges| ==>
      && ranges[k].start < ranges[k].end <= |lines|
      && WuLevel(lines[ranges[k].start]).Some?
      && (forall m :: ranges[k].start < m < ranges[k].end ==> !Closes(lines[m], WuLevel(lines[ranges[k].start]).value))
      && (ranges[k].end < |lines| ==> Closes(lines[ranges[k].end], WuLevel(lines[ranges[k].start]).value))
  {
    forall k | 0 <= k < |ranges| ensures IsSection(rules, lines, ranges[k]) {
    }
  }

  // ---- The loop that makes the Work Units.

  function WuOf(lines: seq<string>, r: Range): Wu
    requires r.start < r.end <= |lines| && WuLevel(lines[r.start]).Some?
  {
    var (id, title) := SplitWu(Heading(lines[r.start]).value.text).value;
    Wu(id, title, TrimEnd(Join(lines[r.start..r.end], '\n')))
  }

  /** The Work Unit of each section. */
  ghost predicate AreWus(lines: seq<string>, ranges: seq<Range>, wus: seq<Wu>) {
    && |wus| == |ranges|
    && forall k :: 0 <= k < |ranges| ==>
         && ranges[k].start < ranges[k].end <= |lines|
         && WuLevel(lines[ranges[k].start]).Some?
         && wus[k] == WuOf(lines, ranges[k])
  }

  lemma AppendWu(lines: seq<string>, ranges: seq<Range>, wus: seq<Wu>, r: Range)
    requires AreWus(lines, ranges, wus) && r.start < r.end <= |lines| && WuLevel(lines[r.start]).Some?
    ensures AreWus(lines, ranges + [r], wus + [WuOf(lines, r)])
  {
  }

  lemma Shifted(done: seq<Range>, r: Range, rest: seq<Range>, all: seq<Range>)
    requires done + ([r] + rest) == all
    ensures done + [r] + rest == all
  {
  }

  /** The line where the section of a heading ends. */
  method FindEnd(rules: Rules, lines: seq<string>, level: nat, at: nat) returns (end: nat)
    requires at <= |lines|
    ensures end == EndFrom(rules, lines, level, at)
  {
    end := at;
    while end < |lines| && !rules.closes(lines[end], level)
      invariant at <= end <= |lines|
      invariant EndFrom(rules, lines, level, end) == EndFrom(rules, lines, level, at)
    {
      end := end + 1;
    }
  }

  /** Every Work Unit section of the plan, in file order. */
  method ParseWus(plan: string) returns (wus: seq<Wu>)
    ensures AreWus(Lines(plan), SectionsFrom(PlanRules(), Lines(plan), 0), wus)
  {
    var (rules, lines) := (PlanRules(), Lines(plan));
    wus := [];
    ghost var ranges: seq<Range> := [];
    var i := 0;
    while i < |lines|
      invariant i <= |lines|
      invariant AreWus(lines, ranges, wus)
      invariant ranges + SectionsFrom(rules, lines, i) == SectionsFrom(rules, lines, 0)
      decreases |lines| - i
    {
      var found := WuLevel(lines[i]);
      if found.None? {
        i := i + 1;
        continue;
      }
      var end := FindEnd(rules, lines, found.value, i + 1);
      ghost var r := Range(i, end);
      SectionFirst(rules, lines, r);
      Shifted(ranges, r, SectionsFrom(rules, lines, end), SectionsFrom(rules, lines, 0));
      AppendWu(lines, ranges, wus, r);
      wus := wus + [WuOf(lines, Range(i, end))];
      ranges := ranges + [r];
      i := end;
    }
  }

  // ---- The block of code facts.

  function Block(facts: seq<string>, n: nat): string
    requires n <= |facts|
  {
    "\n## Callers\n\n" + Join(facts[..n], '\n') + "\n"
  }

  /** The longest prefix of the facts whose block fits, tried from the longest. */
  function LongestFit(facts: seq<string>, n: nat, tokens: string -> nat, budget: nat): nat
    requires n <= |facts|
  {
    if n == 0 || tokens(Block(facts, n)) <= budget then n else LongestFit(facts, n - 1, tokens, budget)
  }

  function CodeFactsBlock(facts: seq<string>, tokens: string -> nat, budget: nat): string {
    if budget == 0 then ""
    else
      LongestFits(facts, |facts|, tokens, budget);
      var n := LongestFit(facts, |facts|, tokens, budget);
      if n == 0 then "" else Block(facts, n)
  }

  lemma {:induction false} LongestFits(facts: seq<string>, n: nat, tokens: string -> nat, budget: nat)
    requires n <= |facts|
    ensures var k := LongestFit(facts, n, tokens, budget);
      && k <= n
      && (k > 0 ==> tokens(Block(facts, k)) <= budget)
      && forall m :: k < m <= n ==> tokens(Block(facts, m)) > budget
  {
    if n > 0 && tokens(Block(facts, n)) > budget {
      LongestFits(facts, n - 1, tokens, budget);
    }
  }

  /** The block is the longest that fits: empty exactly when the budget is zero or
      no fact fits, and never over the budget. */
  lemma BlockIsLongest(facts: seq<string>, tokens: string -> nat, budget: nat)
    ensures CodeFactsBlock(facts, tokens, budget) == "" <==>
      budget == 0 || forall n :: 0 < n <= |facts| ==> tokens(Block(facts, n)) > budget
    ensures CodeFactsBlock(facts, tokens, budget) != "" ==> tokens(CodeFactsBlock(facts, tokens, budget)) <= budget
    ensures forall n :: 0 < n <= |facts| && budget > 0 && tokens(Block(facts, n)) <= budget ==>
      exists k :: n <= k <= |facts| && CodeFactsBlock(facts, tokens, budget) == Block(facts, k)
  {
    LongestFits(facts, |facts|, tokens, budget);
  }
}
