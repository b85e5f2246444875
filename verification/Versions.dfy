/** The order of version strings (crates/cli/src/update/resolve.rs). Every
    upgrade protocol asks it which of two versions is newer. */
module Versions {
  import opened Base
  import opened Text

  function StripV(version: string): string {
    if version != "" && version[0] == 'v' then version[1..] else version
  }

  function IndexOf(s: string, c: char): (i: nat)
    ensures i <= |s|
  {
    if s == "" || s[0] == c then 0 else 1 + IndexOf(s[1..], c)
  }

  /** The text before the build metadata. */
  function Core(version: string): string {
    SplitOn(StripV(version), '+')[0]
  }

  function ToNumber(part: string): nat {
    ParseUnsigned(part, U64_LIMIT).GetOr(0)
  }

  function Numbers(parts: seq<string>): (numbers: seq<nat>)
    ensures |numbers| == |parts|
  {
    seq(|parts|, i requires 0 <= i < |parts| => ToNumber(parts[i]))
  }

  /** The dotted numbers, and the pre-release after the first dash. */
  function Split(version: string): (seq<nat>, Option<string>) {
    var core := Core(version);
    var dash := IndexOf(core, '-');
    if dash == |core| then (Numbers(SplitOn(core, '.')), None)
    else (Numbers(SplitOn(core[..dash], '.')), Some(core[dash + 1..]))
  }

  function Resize(s: seq<nat>, width: nat): (t: seq<nat>)
    ensures |t| == width
  {
    seq(width, i requires 0 <= i < width => if i < |s| then s[i] else 0)
  }

  function CmpNumbers(a: seq<nat>, b: seq<nat>): Order {
    if a == [] then (if b == [] then Equal else Less)
    else if b == [] then Greater
    else CmpInt(a[0], b[0]).Then(CmpNumbers(a[1..], b[1..]))
  }

  function CmpPadded(a: seq<nat>, b: seq<nat>): Order {
    var width := Max(|a|, |b|);
    CmpNumbers(Resize(a, width), Resize(b, width))
  }

  predicate Numeric(id: string) {
    ParseUnsigned(id, U64_LIMIT).Some?
  }

  /** Two pre-release identifiers: as numbers when both are numbers, else as text. */
  function CmpId(a: string, b: string): Order {
    if Numeric(a) && Numeric(b) then CmpInt(ToNumber(a), ToNumber(b)) else Lex(a, b)
  }

  function CmpIds(a: seq<string>, b: seq<string>): Order {
    if a == [] then (if b == [] then Equal else Less)
    else if b == [] then Greater
    else CmpId(a[0], b[0]).Then(CmpIds(a[1..], b[1..]))
  }

  function Ids(pre: string): seq<string> {
    SplitOn(pre, '.')
  }

  function CmpPre(a: Option<string>, b: Option<string>): Order {
    match (a, b)
    case (None, None) => Equal
    case (None, Some(_)) => Greater
    case (Some(_), None) => Less
    case (Some(x), Some(y)) => CmpIds(Ids(x), Ids(y))
  }

  /** How version `a` compares with version `b`. */
  function Compare(a: string, b: string): Order {
    var (an, ap) := Split(a);
    var (bn, bp) := Split(b);
    CmpPadded(an, bn).Then(CmpPre(ap, bp))
  }

  predicate AtMost(a: string, b: string) {
    Compare(a, b) != Greater
  }

  /** The stored version `b` did not fall below the stored version `a`. */
  ghost predicate NotAbove(a: Option<string>, b: Option<string>) {
    a.Some? ==> b.Some? && AtMost(a.value, b.value)
  }

  /** A leading `v` and everything from the first plus on are ignored, and a part of
      the release that is no number counts as zero. */
  lemma Ignored(version: string, metadata: string, part: string)
    requires version != "" && version[0] != 'v' && '+' !in version
    ensures Split("v" + version) == Split(version) && Split(version + "+" + metadata) == Split(version)
    ensures ToNumber(part) == match ParseUnsigned(part, 0x1_0000_0000_0000_0000)
      case Some(n) => n
      case None => 0
  {
    assert ("v" + version)[1..] == version;
    SplitWhole(version, '+');
    assert version + "+" + metadata == version + ['+'] + metadata;
    SplitFirst(version, '+', metadata);
    assert Core(version + "+" + metadata) == version;
  }

  // ---- Compare is total and antisymmetric on every pair of texts.

  lemma {:induction false} CmpNumbersFlip(a: seq<nat>, b: seq<nat>)
    ensures CmpNumbers(b, a) == CmpNumbers(a, b).Flip()
  {
    if a != [] && b != [] {
      CmpNumbersFlip(a[1..], b[1..]);
    }
  }

  lemma {:induction false} CmpIdsFlip(a: seq<string>, b: seq<string>)
    ensures CmpIds(b, a) == CmpIds(a, b).Flip()
  {
    if a != [] && b != [] {
      LexFlip(a[0], b[0]);
      CmpIdsFlip(a[1..], b[1..]);
    }
  }

  /** Swapping the arguments turns the answer round, so any two versions are
      ordered and a version equals itself. */
  lemma CompareFlip(a: string, b: string)
    ensures Compare(b, a) == Compare(a, b).Flip()
    ensures Compare(a, a) == Equal
  {
    CompareFlipPair(a, b);
    CompareFlipPair(a, a);
  }

  lemma CompareFlipPair(a: string, b: string)
    ensures Compare(b, a) == Compare(a, b).Flip()
  {
    var (an, ap) := Split(a);
    var (bn, bp) := Split(b);
    var width := Max(|an|, |bn|);
    CmpNumbersFlip(Resize(an, width), Resize(bn, width));
    if ap.Some? && bp.Some? {
      CmpIdsFlip(Ids(ap.value), Ids(bp.value));
    }
  }

  // ---- Transitivity, and where it stops.

  function Head(a: seq<nat>): nat {
    if a == [] then 0 else a[0]
  }

  function Tail(a: seq<nat>): seq<nat> {
    if a == [] then [] else a[1..]
  }

  lemma ResizePeels(a: seq<nat>, width: nat)
    requires 0 < width && |a| <= width
    ensures Resize(a, width) == [Head(a)] + Resize(Tail(a), width - 1)
  {
  }

  lemma CmpPeels(a: seq<nat>, b: seq<nat>, width: nat)
    requires 0 < width && |a| <= width && |b| <= width
    ensures CmpNumbers(Resize(a, width), Resize(b, width)) ==
      CmpInt(Head(a), Head(b)).Then(CmpNumbers(Resize(Tail(a), width - 1), Resize(Tail(b), width - 1)))
  {
    ResizePeels(a, width);
    ResizePeels(b, width);
    assert Resize(a, width)[1..] == Resize(Tail(a), width - 1);
    assert Resize(b, width)[1..] == Resize(Tail(b), width - 1);
  }

  /** A wider padding never changes the answer. */
  lemma {:induction false} PaddingIsNeutral(a: seq<nat>, b: seq<nat>, width: nat)
    requires |a| <= width && |b| <= width
    ensures CmpNumbers(Resize(a, width), Resize(b, width)) == CmpPadded(a, b)
    decreases width
  {
    if width > 0 {
      var inner := Max(|a|, |b|);
      CmpPeels(a, b, width);
      PaddingIsNeutral(Tail(a), Tail(b), width - 1);
      if inner > 0 {
        CmpPeels(a, b, inner);
      } else {
        assert Resize(Tail(a), 0) == [];
      }
    }
  }

  /** `x`, `y` and `z` are the answers for (a, b), (b, c) and (a, c) of an order. */
  predicate Consistent(x: Order, y: Order, z: Order) {
    && (x != Greater && y != Greater ==> z != Greater)
    && (x == Equal && y == Equal ==> z == Equal)
    && (x != Greater && y != Greater && (x == Less || y == Less) ==> z == Less)
  }

  lemma {:induction false} CmpNumbersTransitive(a: seq<nat>, b: seq<nat>, c: seq<nat>)
    ensures Consistent(CmpNumbers(a, b), CmpNumbers(b, c), CmpNumbers(a, c))
  {
    if a != [] && b != [] && c != [] {
      CmpNumbersTransitive(a[1..], b[1..], c[1..]);
    }
  }

  lemma CmpPaddedTransitive(a: seq<nat>, b: seq<nat>, c: seq<nat>)
    ensures Consistent(CmpPadded(a, b), CmpPadded(b, c), CmpPadded(a, c))
  {
    var width := Max(|a|, Max(|b|, |c|));
    PaddingIsNeutral(a, b, width);
    PaddingIsNeutral(b, c, width);
    PaddingIsNeutral(a, c, width);
    CmpNumbersTransitive(Resize(a, width), Resize(b, width), Resize(c, width));
  }

  lemma {:induction false} CmpIdsTransitive(a: seq<string>, b: seq<string>, c: seq<string>)
    requires forall i :: 0 <= i < |a| && i < |b| ==> (Numeric(a[i]) <==> Numeric(b[i]))
    requires forall i :: 0 <= i < |b| && i < |c| ==> (Numeric(b[i]) <==> Numeric(c[i]))
    requires forall i :: 0 <= i < |a| && i < |c| ==> (Numeric(a[i]) <==> Numeric(c[i]))
    ensures Consistent(CmpIds(a, b), CmpIds(b, c), CmpIds(a, c))
  {
    if a != [] && b != [] && c != [] {
      LexFlip(a[0], b[0]);
      LexFlip(b[0], c[0]);
      LexFlip(a[0], c[0]);
      if LexLeq(a[0], b[0]) && LexLeq(b[0], c[0]) {
        LexTransitive(a[0], b[0], c[0]);
      }
      CmpIdsTransitive(a[1..], b[1..], c[1..]);
    }
  }

  ghost predicate Comparable(a: string, b: string) {
    var (x, y) := (Split(a).1, Split(b).1);
    x.Some? && y.Some? ==>
      forall i :: 0 <= i < |Ids(x.value)| && i < |Ids(y.value)| ==>
        (Numeric(Ids(x.value)[i]) <==> Numeric(Ids(y.value)[i]))
  }

  /** Versions whose pre-release identifiers never mix numbers and words at one
      dot position are ordered as expected. Releases without a pre-release
      always are. */
  lemma CompareTransitive(a: string, b: string, c: string)
    requires Comparable(a, b) && Comparable(b, c) && Comparable(a, c)
    ensures Consistent(Compare(a, b), Compare(b, c), Compare(a, c))
  {
    var (an, ap) := Split(a);
    var (bn, bp) := Split(b);
    var (cn, cp) := Split(c);
    CmpPaddedTransitive(an, bn, cn);
    if ap.Some? && bp.Some? && cp.Some? {
      CmpIdsTransitive(Ids(ap.value), Ids(bp.value), Ids(cp.value));
    }
  }

  /** Whether the order is transitive on these versions. */
  ghost predicate TransitiveOn(versions: set<string>) {
    forall a, b, c {:trigger Compare(a, b), Compare(b, c)} ::
      a in versions && b in versions && c in versions && AtMost(a, b) && AtMost(b, c) ==> AtMost(a, c)
  }

  /** No version is strictly below another one. */
  ghost predicate NoneBelow(versions: set<string>) {
    forall a, b :: a in versions && b in versions ==> Compare(a, b) != Less
  }

  lemma NoneBelowIsTransitive(versions: set<string>)
    requires NoneBelow(versions)
    ensures TransitiveOn(versions)
    ensures forall a, b :: a in versions && b in versions ==> AtMost(a, b)
  {
    forall a, b | a in versions && b in versions ensures AtMost(a, b) {
      CompareFlip(a, b);
    }
  }

  lemma ComparableIsTransitive(versions: set<string>)
    requires forall a, b :: a in versions && b in versions ==> Comparable(a, b)
    ensures TransitiveOn(versions)
  {
    forall a, b, c | a in versions && b in versions && c in versions && AtMost(a, b) && AtMost(b, c)
      ensures AtMost(a, c)
    {
      CompareTransitive(a, b, c);
    }
  }

  lemma {:induction false} IndexAfter(s: string, c: char, rest: string)
    requires c !in s
    ensures IndexOf(s + [c] + rest, c) == |s|
  {
    if s != "" {
      IndexAfter(s[1..], c, rest);
      assert (s + [c] + rest)[1..] == s[1..] + [c] + rest;
    }
  }

  /** A release text: no dash, no build metadata. */
  predicate IsRelease(release: string) {
    release != "" && release[0] != 'v' && '-' !in release && '+' !in release
  }

  /** A pre-release that is one dot-free identifier. */
  lemma SplitPre(release: string, pre: string)
    requires IsRelease(release) && '.' !in pre && '+' !in pre
    ensures Split(release + "-" + pre) == (Numbers(SplitOn(release, '.')), Some(pre))
    ensures Ids(pre) == [pre]
  {
    var v := release + "-" + pre;
    assert StripV(v) == v && '+' !in v;
    SplitWhole(v, '+');
    IndexAfter(release, '-', pre);
    assert v[..|release|] == release && v[|release| + 1..] == pre;
    SplitWhole(pre, '.');
  }

  lemma OneDigit()
    ensures ToNumber("9") == 9 && Numeric("9")
  {
    assert Digits(9) == "9";
    DigitsReadBack(9, U64_LIMIT);
  }

  lemma NotNumeric(id: string, i: nat)
    requires i < |id| && id[0] != '+' && !IsDigit(id[i])
    ensures !Numeric(id)
  {
    assert !AllDigits(id);
  }

  lemma TenAndWord()
    ensures ToNumber("10") == 10 && Numeric("10") && !Numeric("1a")
    ensures Lex("10", "1a") == Less && Lex("1a", "9") == Less
  {
    assert Digits(10) == Digits(1) + "0" == "10";
    DigitsReadBack(10, U64_LIMIT);
    NotNumeric("1a", 1);
    assert "10"[1..] == "0" && "1a"[1..] == "a";
  }

  lemma CmpPreOne(release: string, x: string, y: string)
    requires IsRelease(release) && '.' !in x && '+' !in x && '.' !in y && '+' !in y
    ensures Compare(release + "-" + x, release + "-" + y) == CmpId(x, y)
  {
    SplitPre(release, x);
    SplitPre(release, y);
    CompareFlip(release + "-" + x, release + "-" + x);
    assert [x][1..] == [] && [y][1..] == [];
  }

  /** Numbers and words mixed at one position can run in a circle:
      1.0.0-9 < 1.0.0-10 < 1.0.0-1a < 1.0.0-9. */
  lemma CompareCanCycle(a: string, b: string, c: string)
    requires a == "1.0.0-9" && b == "1.0.0-10" && c == "1.0.0-1a"
    ensures Compare(a, b) == Compare(b, c) == Compare(c, a) == Less
    ensures !TransitiveOn({a, b, c})
  {
    var release, nine, ten, word := "1.0.0", "9", "10", "1a";
    assert a == release + "-" + nine && b == release + "-" + ten && c == release + "-" + word;
    OneDigit();
    TenAndWord();
    CmpPreOne(release, nine, ten);
    CmpPreOne(release, ten, word);
    CmpPreOne(release, word, nine);
    CompareFlip(a, c);
  }

  // ---- Versions that may be missing.

  ghost predicate Within(version: Option<string>, versions: set<string>) {
    version.Some? ==> version.value in versions
  }

  lemma NotAboveItself(version: Option<string>)
    ensures NotAbove(version, version)
  {
    if version.Some? {
      CompareFlip(version.value, version.value);
    }
  }

  lemma NotAboveChains(a: Option<string>, b: Option<string>, c: Option<string>, versions: set<string>)
    requires TransitiveOn(versions) && Within(a, versions) && Within(b, versions) && Within(c, versions)
    requires NotAbove(a, b) && NotAbove(b, c)
    ensures NotAbove(a, c)
  {
  }
}
