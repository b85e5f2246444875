/** Sessions that run one after another. */
module PendingInOrder {
  import opened Base
  import opened Pending

  datatype Event =
    | Session(now: nat, items: seq<Item>, headed: bool, prune: Prune)
    | Ack(now: nat, items: seq<Item>)

  function Applied(marks: Marks, e: Event): Marks {
    match e
    case Session(now, items, headed, prune) =>
      if !headed then marks
      else WrittenMarks(marks, items, Showing(items, marks, now, Full) + Showing(items, marks, now, Compact),
                        now, false, prune)
    case Ack(now, items) => WrittenMarks(marks, items, items, now, true, PRUNE_NONE)
  }

  /** The marks before event `k`. */
  function MarksAt(marks: Marks, events: seq<Event>, k: nat): Marks
    requires k <= |events|
  {
    if k == 0 then marks else Applied(MarksAt(marks, events, k - 1), events[k - 1])
  }

  /** How session `k` shows the item. */
  function ShowAt(marks: Marks, events: seq<Event>, item: Item, k: nat): Show
    requires k < |events|
  {
    Decide(item, MarkOf(MarksAt(marks, events, k), item.slug), events[k].now)
  }

  /** Whether a person saw the item at event `k`. */
  predicate Seen(marks: Marks, events: seq<Event>, item: Item, k: nat)
    requires k < |events|
  {
    events[k].Ack? || (events[k].headed && ShowAt(marks, events, item, k) != Hide)
  }

  predicate Acked(events: seq<Event>, k: nat)
    requires k <= |events|
  {
    exists j :: 0 <= j < k && events[j].Ack?
  }

  /** The item is new, stays listed unchanged, and the clock never goes back. */
  ghost predicate Steady(marks: Marks, events: seq<Event>, item: Item) {
    && (item.slug in marks ==> marks[item.slug].fp != item.fp)
    && (forall k :: 0 <= k < |events| ==> item in events[k].items && Unchanged(events[k].items, item))
    && (forall i, j :: 0 <= i < j < |events| ==> events[i].now <= events[j].now)
  }

  ghost function LastSeen(marks: Marks, events: seq<Event>, item: Item, k: nat): (r: Option<nat>)
    requires k <= |events|
    ensures r.None? ==> forall j :: 0 <= j < k ==> !Seen(marks, events, item, j)
    ensures r.Some? ==>
      && r.value < k && Seen(marks, events, item, r.value)
      && forall j :: r.value < j < k ==> !Seen(marks, events, item, j)
  {
    if k == 0 then None
    else if Seen(marks, events, item, k - 1) then Some(k - 1)
    else LastSeen(marks, events, item, k - 1)
  }

  /** What one write does to the mark of a listed item. */
  lemma WriteMarksListed(marks: Marks, items: seq<Item>, showing: seq<Item>, now: nat, ack: bool, prune: Prune,
                         item: Item)
    requires item in items && Unchanged(items, item) && Within(showing, items)
    ensures item in showing ==>
      MarkOf(WrittenMarks(marks, items, showing, now, ack, prune), item.slug) == Some(NewMark(marks, item, now, ack))
    ensures item !in showing ==>
      MarkOf(WrittenMarks(marks, items, showing, now, ack, prune), item.slug) == MarkOf(marks, item.slug)
  {
    var at :| 0 <= at < |items| && items[at] == item;
    assert Listed(items, item.slug);
    MarkAllAt(Pruned(marks, items, prune), marks, showing, now, ack, item.slug);
    forall i | 0 <= i < |showing| && showing[i].slug == item.slug ensures showing[i] == item {
      var k :| 0 <= k < |items| && items[k] == showing[i];
    }
    if item in showing {
      var i :| 0 <= i < |showing| && showing[i] == item;
      assert Listed(showing, item.slug);
    }
  }

  lemma ShowingIffDecided(items: seq<Item>, marks: Marks, now: nat, item: Item)
    requires item in items
    ensures item in Showing(items, marks, now, Full) + Showing(items, marks, now, Compact) <==>
      Decide(item, MarkOf(marks, item.slug), now) != Hide
  {
    var show := Decide(item, MarkOf(marks, item.slug), now);
    if show != Hide {
      ShowingHolds(items, marks, now, show, item);
    }
  }

  /** The mark of a listed item after one event. */
  function MarkAfter(mark: Option<Mark>, e: Event, item: Item): Option<Mark> {
    var kept := mark.Some? && mark.value.fp == item.fp && mark.value.acked;
    if e.Ack? then Some(Mark(item.fp, e.now, kept || item.kind == Report))
    else if e.headed && Decide(item, mark, e.now) != Hide then Some(Mark(item.fp, e.now, kept))
    else mark
  }

  lemma MarkAfterEvent(marks: Marks, e: Event, item: Item)
    requires item in e.items && Unchanged(e.items, item)
    ensures MarkOf(Applied(marks, e), item.slug) == MarkAfter(MarkOf(marks, item.slug), e, item)
  {
    if e.Ack? {
      WriteMarksListed(marks, e.items, e.items, e.now, true, PRUNE_NONE, item);
    } else {
      var showing := Showing(e.items, marks, e.now, Full) + Showing(e.items, marks, e.now, Compact);
      ShowingIffDecided(e.items, marks, e.now, item);
      WriteMarksListed(marks, e.items, showing, e.now, false, e.prune, item);
    }
  }

  /** A mark that holds exactly when the item was last seen, and whether it was
      acknowledged. */
  predicate IsHistory(mark: Option<Mark>, item: Item, lastSeen: Option<nat>, acked: bool) {
    match lastSeen
    case None => (mark.Some? ==> mark.value.fp != item.fp) && !acked
    case Some(at) => mark == Some(Mark(item.fp, at, item.kind == Report && acked))
  }

  lemma HistoryStep(mark: Option<Mark>, e: Event, item: Item, lastSeen: Option<nat>, acked: bool, seen: bool)
    requires IsHistory(mark, item, lastSeen, acked)
    requires seen == (e.Ack? || (e.headed && Decide(item, mark, e.now) != Hide))
    ensures IsHistory(MarkAfter(mark, e, item), item, if seen then Some(e.now) else lastSeen, acked || e.Ack?)
  {
  }

  lemma {:induction false} MarkFollowsHistory(marks: Marks, events: seq<Event>, item: Item, k: nat)
    requires k <= |events| && Steady(marks, events, item)
    ensures var last := LastSeen(marks, events, item, k);
      IsHistory(MarkOf(MarksAt(marks, events, k), item.slug), item,
                if last.Some? then Some(events[last.value].now) else None, Acked(events, k))
  {
    if k > 0 {
      var (before, e, last) := (MarksAt(marks, events, k - 1), events[k - 1], LastSeen(marks, events, item, k - 1));
      MarkFollowsHistory(marks, events, item, k - 1);
      MarkAfterEvent(before, e, item);
      HistoryStep(MarkOf(before, item.slug), e, item, if last.Some? then Some(events[last.value].now) else None,
                  Acked(events, k - 1), Seen(marks, events, item, k - 1));
      assert Acked(events, k) <==> Acked(events, k - 1) || e.Ack?;
    }
  }

  /** The reminder theorem. For an item that stays listed unchanged: it shows in
      full exactly until a person first saw it; it shows as a reminder exactly
      when it was seen, is not an acknowledged report, and a day passed since
      every time it was seen; else it is hidden. */
  lemma ShownOnceThenDaily(marks: Marks, events: seq<Event>, item: Item, k: nat)
    requires k < |events| && Steady(marks, events, item)
    ensures ShowAt(marks, events, item, k) == Full <==> forall j :: 0 <= j < k ==> !Seen(marks, events, item, j)
    ensures ShowAt(marks, events, item, k) == Compact <==>
      && (exists j :: 0 <= j < k && Seen(marks, events, item, j))
      && (forall j :: 0 <= j < k && Seen(marks, events, item, j) ==> events[k].now >= events[j].now + REMIND_AFTER_SECS)
      && !(item.kind == Report && Acked(events, k))
  {
    MarkFollowsHistory(marks, events, item, k);
    var last := LastSeen(marks, events, item, k);
    if last.Some? {
      assert events[last.value].now <= events[k].now;
      forall j | 0 <= j < k && Seen(marks, events, item, j) ensures events[j].now <= events[last.value].now {
        assert j <= last.value;
      }
    }
  }

  /** So at most one session shows the item in full to a person, and a headless
      session changes no mark. */
  lemma FullAtMostOnce(marks: Marks, events: seq<Event>, item: Item, j: nat, k: nat)
    requires j < k < |events| && Steady(marks, events, item)
    ensures events[j].Session? && events[j].headed && ShowAt(marks, events, item, j) == Full ==>
      ShowAt(marks, events, item, k) != Full
    ensures events[j].Session? && !events[j].headed ==> MarksAt(marks, events, j + 1) == MarksAt(marks, events, j)
  {
    ShownOnceThenDaily(marks, events, item, k);
    if events[j].Session? && events[j].headed && ShowAt(marks, events, item, j) == Full {
      assert Seen(marks, events, item, j);
    }
  }
}
