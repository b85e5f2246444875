/** The pinned token counter (crates/code-bench/src/tokenizer.rs). A text is the
    list of the classes of its characters; which character has which class is
    Unicode data. */
module Tokenizer {

  const WORD_CHARS_PER_TOKEN: nat := 4

  datatype Class = Word | Space | Mark

  function RunCost(n: nat): nat {
    (n + WORD_CHARS_PER_TOKEN - 1) / WORD_CHARS_PER_TOKEN
  }

  /** The length of the run of word characters a text starts with. */
  function RunLength(text: seq<Class>): (n: nat)
    ensures n <= |text|
    ensures forall i :: 0 <= i < n ==> text[i] == Word
    ensures n < |text| ==> text[n] != Word
  {
    if text == [] || text[0] != Word then 0 else 1 + RunLength(text[1..])
  }

  /** Each maximal run of word characters costs a token per four characters,
      rounded up; a mark costs one; white space is free. */
  function Tokens(text: seq<Class>): nat
    decreases |text|
  {
    if text == [] then 0
    else if text[0] != Word then (if text[0] == Mark then 1 else 0) + Tokens(text[1..])
    else RunCost(RunLength(text)) + Tokens(text[RunLength(text)..])
  }

  lemma RunLengthIs(text: seq<Class>, n: nat)
    requires n <= |text|
    requires forall i :: 0 <= i < n ==> text[i] == Word
    requires n < |text| ==> text[n] != Word
    ensures RunLength(text) == n
  {
    var m := RunLength(text);
    assert m == n;
  }

  /** A run and what follows it. */
  lemma TokensOfRun(run: seq<Class>, rest: seq<Class>)
    requires forall i :: 0 <= i < |run| ==> run[i] == Word
    requires rest != [] ==> rest[0] != Word
    ensures Tokens(run + rest) == RunCost(|run|) + Tokens(rest)
  {
    var text := run + rest;
    RunLengthIs(text, |run|);
    if run == [] {
      assert text == rest;
    } else {
      assert text[|run|..] == rest;
    }
  }

  /** `tokens` is the cost of the text before position `i`, without the `run`
      word characters that end there. */
  ghost predicate Counted(text: seq<Class>, i: nat, run: nat, tokens: nat) {
    && run <= i <= |text|
    && (forall k :: i - run <= k < i ==> text[k] == Word)
    && Tokens(text) == tokens + Tokens(text[i - run..])
  }

  lemma CountedOther(text: seq<Class>, i: nat, run: nat, tokens: nat)
    requires i < |text| && text[i] != Word && Counted(text, i, run, tokens)
    ensures Counted(text, i + 1, 0, tokens + RunCost(run) + if text[i] == Mark then 1 else 0)
  {
    assert text[i - run..] == text[i - run..i] + text[i..];
    TokensOfRun(text[i - run..i], text[i..]);
    assert text[i..][1..] == text[i + 1..];
  }

  lemma CountedStart(text: seq<Class>)
    ensures Counted(text, 0, 0, 0)
  {
    assert text[0..] == text;
  }

  lemma CountedWord(text: seq<Class>, i: nat, run: nat, tokens: nat)
    requires i < |text| && text[i] == Word && Counted(text, i, run, tokens)
    ensures Counted(text, i + 1, run + 1, tokens)
  {
    assert i + 1 - (run + 1) == i - run;
  }

  lemma CountedAll(text: seq<Class>, run: nat, tokens: nat)
    requires Counted(text, |text|, run, tokens)
    ensures tokens + RunCost(run) == Tokens(text)
  {
    var tail := text[|text| - run..];
    assert tail == tail + [];
    TokensOfRun(tail, []);
  }

  method CountTokens(text: seq<Class>) returns (tokens: nat)
    ensures tokens == Tokens(text)
  {
    tokens := 0;
    var run: nat := 0;
    CountedStart(text);
    for i := 0 to |text|
      invariant Counted(text, i, run, tokens)
    {
      if text[i] == Word {
        CountedWord(text, i, run, tokens);
        run := run + 1;
      } else {
        CountedOther(text, i, run, tokens);
        tokens := tokens + RunCost(run);
        run := 0;
        if text[i] == Mark {
          tokens := tokens + 1;
        }
      }
    }
    CountedAll(text, run, tokens);
    tokens := tokens + RunCost(run);
  }

  lemma CeilOfSum(n: nat, m: nat)
    ensures RunCost(n + m) <= RunCost(n) + RunCost(m) <= RunCost(n + m) + 1
  {}

  /** The cut falls inside or right after a run. */
  lemma SplitInRun(a: seq<Class>, b: seq<Class>)
    requires forall i :: 0 <= i < |a| ==> a[i] == Word
    ensures Tokens(a + b) <= Tokens(a) + Tokens(b) <= Tokens(a + b) + 1
  {
    var m := RunLength(b);
    var (run, rest) := (b[..m], b[m..]);
    assert a + b == (a + run) + rest && a == a + [] && b == run + rest;
    TokensOfRun(a + run, rest);
    TokensOfRun(a, []);
    TokensOfRun(run, rest);
    CeilOfSum(|a|, m);
  }

  /** The first run ends before the cut. */
  lemma RunBeforeCut(a: seq<Class>, b: seq<Class>, n: nat)
    requires n == RunLength(a) < |a|
    ensures Tokens(a + b) == RunCost(n) + Tokens(a[n..] + b)
    ensures Tokens(a) == RunCost(n) + Tokens(a[n..])
  {
    assert a == a[..n] + a[n..] && a + b == a[..n] + (a[n..] + b);
    TokensOfRun(a[..n], a[n..]);
    TokensOfRun(a[..n], a[n..] + b);
  }

  /** Cutting a text in two never lowers its cost and raises it by one token at
      most, since only the run across the cut is rounded twice. */
  lemma {:induction false} SplitCostsAtMostOne(a: seq<Class>, b: seq<Class>)
    ensures Tokens(a + b) <= Tokens(a) + Tokens(b) <= Tokens(a + b) + 1
    decreases |a|
  {
    var n := RunLength(a);
    if n == |a| {
      SplitInRun(a, b);
    } else if n == 0 {
      SplitCostsAtMostOne(a[1..], b);
      assert (a + b)[1..] == a[1..] + b;
    } else {
      RunBeforeCut(a, b, n);
      SplitCostsAtMostOne(a[n..], b);
    }
  }
}
