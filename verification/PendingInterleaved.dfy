/** Sessions and acknowledgements that interleave in any order. */
module PendingInterleaved {
  import opened Pending
  import InOrder = PendingInOrder

  type Pid = nat

  /** A session that read the marks and still has to write. */
  datatype Session = Session(items: seq<Item>, showing: seq<Item>, now: nat, prune: Prune)

  datatype State = State(marks: Marks, sessions: map<Pid, Session>)

  datatype Step =
    | Read(p: Pid, items: seq<Item>, now: nat, prune: Prune, readable: bool)
    | Write(p: Pid, writable: bool)
    | Drop(p: Pid)                                     // headless, or killed before its write
    | Ack(items: seq<Item>, now: nat, writable: bool)

  predicate Enabled(s: State, step: Step) {
    match step
    case Read(p, _, _, _, _) => p !in s.sessions
    case Write(p, _) => p in s.sessions
    case Drop(p) => p in s.sessions
    case Ack(_, _, _) => true
  }

  function Shown(s: State, step: Step): seq<Item>
    requires step.Read?
  {
    var marks := if step.readable then s.marks else map[];
    Showing(step.items, marks, step.now, Full) + Showing(step.items, marks, step.now, Compact)
  }

  function After(s: State, step: Step): State
    requires Enabled(s, step)
  {
    match step
    case Read(p, items, now, prune, _) => s.(sessions := s.sessions[p := Session(items, Shown(s, step), now, prune)])
    case Write(p, writable) =>
      var w := s.sessions[p];
      State(if writable then WrittenMarks(s.marks, w.items, w.showing, w.now, false, w.prune) else s.marks,
            s.sessions - {p})
    case Drop(p) => s.(sessions := s.sessions - {p})
    case Ack(items, now, writable) =>
      s.(marks := if writable then WrittenMarks(s.marks, items, items, now, true, PRUNE_NONE) else s.marks)
  }

  // ---- Sessions that do not overlap.

  /** A session whose marks can be read shows and writes what a session in order
      does; headless or killed it writes nothing, and so it is when the store cannot
      be written. */
  lemma AloneIsInOrder(s: State, p: Pid, items: seq<Item>, now: nat, prune: Prune)
    requires p !in s.sessions
    ensures var mid := After(s, Read(p, items, now, prune, true));
      && After(mid, Write(p, true)).marks == InOrder.Applied(s.marks, InOrder.Session(now, items, true, prune))
      && After(mid, Write(p, false)).marks == After(mid, Drop(p)).marks == mid.marks == s.marks
      && After(mid, Write(p, true)).sessions == After(mid, Write(p, false)).sessions == After(mid, Drop(p)).sessions
      && After(mid, Drop(p)).sessions == s.sessions
      && !Enabled(mid, Read(p, items, now, prune, true)) && !Enabled(s, Write(p, true)) && !Enabled(s, Drop(p))
  {
    var mid := After(s, Read(p, items, now, prune, true));
    assert mid.sessions - {p} == s.sessions;
  }

  /** An acknowledgement writes what one in order does, or nothing. */
  lemma AckIsInOrder(s: State, items: seq<Item>, now: nat)
    ensures After(s, Ack(items, now, true)) == s.(marks := InOrder.Applied(s.marks, InOrder.Ack(now, items)))
    ensures After(s, Ack(items, now, false)) == s
  {
  }

  /** A session that cannot read the marks shows every item in full. */
  lemma UnreadShowsAll(s: State, p: Pid, items: seq<Item>, now: nat, prune: Prune)
    ensures Shown(s, Read(p, items, now, prune, false)) == items
  {
    var none: Marks := map[];
    NoMarksShowAll(items, none, now);
    assert items + [] == items;
  }

  lemma UnseenIsNew(item: Item, marks: Marks, now: nat)
    requires item.slug !in marks
    ensures Decide(item, MarkOf(marks, item.slug), now) == Full
  {
  }

  lemma {:induction false} NoMarksShowAll(items: seq<Item>, marks: Marks, now: nat)
    requires forall slug :: slug !in marks
    ensures Showing(items, marks, now, Full) == items && Showing(items, marks, now, Compact) == []
  {
    if items != [] {
      var (front, last) := (items[..|items| - 1], items[|items| - 1]);
      NoMarksShowAll(front, marks, now);
      UnseenIsNew(last, marks, now);
      assert items == front + [last];
    }
  }

  ghost predicate IsRun(states: seq<State>, steps: seq<Step>) {
    && |states| == |steps| + 1
    && states[0].sessions == map[]
    && forall i :: 0 <= i < |steps| ==> Enabled(states[i], steps[i]) && states[i + 1] == After(states[i], steps[i])
  }

  /** The list keeps the item: the same item, or a slug its write may not drop. */
  ghost predicate Keeps(items: seq<Item>, prune: Prune, item: Item) {
    Unchanged(items, item) && (Listed(items, item.slug) || !prune.Allows(item.slug))
  }

  ghost predicate StepKeeps(step: Step, item: Item) {
    match step
    case Read(_, items, _, prune, _) => Keeps(items, prune, item)
    case Ack(items, _, _) => Keeps(items, PRUNE_NONE, item)
    case _ => true
  }

  ghost predicate SessionsKeep(s: State, item: Item) {
    forall p :: p in s.sessions ==>
      Keeps(s.sessions[p].items, s.sessions[p].prune, item) && Within(s.sessions[p].showing, s.sessions[p].items)
  }

  lemma {:induction false} SessionsAlwaysKeep(states: seq<State>, steps: seq<Step>, item: Item, n: nat)
    requires IsRun(states, steps) && n < |states|
    requires forall i :: 0 <= i < |steps| ==> StepKeeps(steps[i], item)
    ensures SessionsKeep(states[n], item)
  {
    if n > 0 {
      SessionsAlwaysKeep(states, steps, item, n - 1);
      assert StepKeeps(steps[n - 1], item);
    }
  }

  /** An acknowledged report item stays acknowledged whatever the other sessions
      do, those that read the marks before the acknowledgement included, and no
      session that reads the marks afterwards shows it. */
  lemma {:induction false} AckIsForEver(states: seq<State>, steps: seq<Step>, item: Item, from: nat, n: nat)
    requires IsRun(states, steps) && from <= n < |states|
    requires item.kind == Report && Settled(states[from].marks, item)
    requires forall i :: 0 <= i < |steps| ==> StepKeeps(steps[i], item)
    ensures Settled(states[n].marks, item)
    ensures n < |steps| && steps[n].Read? && steps[n].readable ==> !Listed(Shown(states[n], steps[n]), item.slug)
  {
    if from < n {
      AckIsForEver(states, steps, item, from, n - 1);
      var (s, step) := (states[n - 1], steps[n - 1]);
      SessionsAlwaysKeep(states, steps, item, n - 1);
      assert StepKeeps(step, item);
      if step.Write? {
        var w := s.sessions[step.p];
        AckSurvivesExactly(s.marks, w.items, w.showing, w.now, false, w.prune, item);
      } else if step.Ack? {
        AckSurvivesExactly(s.marks, step.items, step.items, step.now, true, PRUNE_NONE, item);
      }
    }
    if n < |steps| && steps[n].Read? && steps[n].readable {
      assert StepKeeps(steps[n], item);
      SettledIsHidden(states[n], steps[n], item);
    }
  }

  lemma SettledIsHidden(s: State, step: Step, item: Item)
    requires step.Read? && step.readable && Unchanged(step.items, item)
    requires item.kind == Report && Settled(s.marks, item)
    ensures !Listed(Shown(s, step), item.slug)
  {
    var shown := Shown(s, step);
    forall i | 0 <= i < |shown| ensures shown[i].slug != item.slug {
      var k :| 0 <= k < |step.items| && step.items[k] == shown[i];
    }
  }
}
