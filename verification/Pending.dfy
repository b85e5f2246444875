/** The marks of the items that need the user (crates/cli/src/pending.rs). The
    fingerprint of an item is a field: two items show the same text exactly when
    their fingerprints are equal. The marks are the rows under one key prefix. */
module Pending {
  import opened Base
  import opened Folds

  const REMIND_AFTER_SECS: nat := 24 * 60 * 60
  const PLUGIN_NEEDS_BINARY := "plugin-needs-newer-binary"
  const PLUGIN_STALE_SESSION := "plugin-stale-session"
  const PLUGIN_RANGE := "plugin-version-range"

  datatype Kind = Consent | Report

  datatype Item = Item(slug: string, kind: Kind, fp: string)

  datatype Mark = Mark(fp: string, shown: nat, acked: bool)

  type Marks = map<string, Mark>

  datatype Show = Full | Compact | Hide

  function MarkOf(marks: Marks, slug: string): Option<Mark> {
    if slug in marks then Some(marks[slug]) else None
  }

  /** In full, as a reminder, or not at all. A mark later than `now` does not
      put a reminder off. */
  function Decide(item: Item, mark: Option<Mark>, now: nat): Show {
    match mark
    case Some(m) =>
      if m.fp != item.fp then Full
      else if m.acked && item.kind == Report then Hide
      else if SatSub(now, m.shown) >= REMIND_AFTER_SECS || m.shown > now then Compact
      else Hide
    case None => Full
  }

  /** What a list is complete for: the marks of other slugs it says nothing about. */
  datatype Prune = Prune(migrations: bool, sessionPlugin: bool) {
    predicate Allows(slug: string) {
      if slug == PLUGIN_STALE_SESSION then sessionPlugin
      else if slug == PLUGIN_NEEDS_BINARY || slug == PLUGIN_RANGE then true
      else migrations
    }
  }

  const PRUNE_NONE := Prune(false, false)

  predicate Listed(items: seq<Item>, slug: string) {
    exists i :: 0 <= i < |items| && items[i].slug == slug
  }

  /** Both lists joined, without the range check of the first one. */
  function Merge(open: seq<Item>, plugin: seq<Item>): seq<Item> {
    WithoutRange(open) + plugin
  }

  function WithoutRange(items: seq<Item>): seq<Item> {
    Kept(items, (item: Item) => item.slug != PLUGIN_RANGE)
  }

  lemma WithoutRangeHolds(items: seq<Item>, item: Item)
    ensures item in WithoutRange(items) <==> item in items && item.slug != PLUGIN_RANGE
  {
    KeptMembers(items, (i: Item) => i.slug != PLUGIN_RANGE, item);
  }

  ghost predicate EachSlugOnce(items: seq<Item>) {
    forall i, j :: 0 <= i < j < |items| ==> items[i].slug != items[j].slug
  }

  lemma {:induction false} WithoutRangeOnce(items: seq<Item>)
    requires EachSlugOnce(items)
    ensures EachSlugOnce(WithoutRange(items))
  {
    if items != [] {
      var tail := items[1..];
      WithoutRangeOnce(tail);
      forall k | 0 <= k < |WithoutRange(tail)| ensures WithoutRange(tail)[k].slug != items[0].slug {
        WithoutRangeHolds(tail, WithoutRange(tail)[k]);
        var m :| 0 <= m < |tail| && tail[m] == WithoutRange(tail)[k];
        assert items[m + 1] == tail[m];
      }
    }
  }

  /** The merged list holds each slug once, though both lists may hold the range
      check. */
  lemma MergeListsEachSlugOnce(open: seq<Item>, plugin: seq<Item>)
    requires EachSlugOnce(open) && EachSlugOnce(plugin)
    requires forall i, j :: 0 <= i < |open| && 0 <= j < |plugin| && open[i].slug == plugin[j].slug ==>
      open[i].slug == PLUGIN_RANGE
    ensures EachSlugOnce(Merge(open, plugin))
  {
    WithoutRangeOnce(open);
    var kept := WithoutRange(open);
    forall i, j | 0 <= i < |kept| && 0 <= j < |plugin| ensures kept[i].slug != plugin[j].slug {
      WithoutRangeHolds(open, kept[i]);
      var m :| 0 <= m < |open| && open[m] == kept[i];
    }
  }

  /** Nothing else is lost: an item is merged when a plugin check found it, or a
      migration and it is not the range check. */
  lemma MergeHolds(open: seq<Item>, plugin: seq<Item>, item: Item)
    ensures item in Merge(open, plugin) <==> item in plugin || (item in open && item.slug != PLUGIN_RANGE)
  {
    WithoutRangeHolds(open, item);
  }

  /** The migration items come first, and both lists keep their order. */
  lemma MergeKeepsOrder(front: seq<Item>, back: seq<Item>, plugin: seq<Item>)
    ensures Merge(front + back, plugin) == Merge(front, []) + Merge(back, plugin)
    ensures Merge([], plugin) == plugin
  {
    KeptSplit(front, back, (item: Item) => item.slug != PLUGIN_RANGE);
    assert Merge(front, []) == WithoutRange(front);
  }

  // ---- One write of the marks.

  function Pruned(marks: Marks, items: seq<Item>, prune: Prune): Marks {
    map slug | slug in marks && !(prune.Allows(slug) && !Listed(items, slug)) :: marks[slug]
  }

  function NewMark(marks: Marks, item: Item, now: nat, ack: bool): Mark {
    var kept := item.slug in marks && marks[item.slug].fp == item.fp && marks[item.slug].acked;
    Mark(item.fp, now, kept || (ack && item.kind == Report))
  }

  function MarkAll(base: Marks, marks: Marks, showing: seq<Item>, now: nat, ack: bool): Marks {
    if showing == [] then base
    else
      var (front, last) := (showing[..|showing| - 1], showing[|showing| - 1]);
      MarkAll(base, marks, front, now, ack)[last.slug := NewMark(marks, last, now, ack)]
  }

  function WrittenMarks(marks: Marks, items: seq<Item>, showing: seq<Item>, now: nat, ack: bool, prune: Prune): Marks {
    MarkAll(Pruned(marks, items, prune), marks, showing, now, ack)
  }

  lemma {:induction false} MarkAllAt(base: Marks, marks: Marks, showing: seq<Item>, now: nat, ack: bool, slug: string)
    ensures Listed(showing, slug) ==>
      (exists i :: 0 <= i < |showing| && showing[i].slug == slug &&
        MarkOf(MarkAll(base, marks, showing, now, ack), slug) == Some(NewMark(marks, showing[i], now, ack)))
    ensures !Listed(showing, slug) ==> MarkOf(MarkAll(base, marks, showing, now, ack), slug) == MarkOf(base, slug)
  {
    if showing != [] {
      var (front, last) := (showing[..|showing| - 1], showing[|showing| - 1]);
      MarkAllAt(base, marks, front, now, ack, slug);
      if last.slug != slug && Listed(showing, slug) {
        var i :| 0 <= i < |showing| && showing[i].slug == slug;
        assert front[i] == showing[i];
        assert Listed(front, slug);
      }
      if Listed(front, slug) {
        var i :| 0 <= i < |front| && front[i].slug == slug;
        assert showing[i].slug == slug;
      }
    }
  }

  class MarkStore {
    var marks: Marks

    constructor (marks: Marks)
      ensures this.marks == marks
    {
      this.marks := marks;
    }

    /** Drops the marks `prune` allows for items that left the list, and writes
        the marks of `showing`, in one transaction. */
    method WriteMarks(items: seq<Item>, showing: seq<Item>, now: nat, ack: bool, prune: Prune, writable: bool)
      modifies this
      ensures marks ==
        if writable then WrittenMarks(old(marks), items, showing, now, ack, prune) else old(marks)
    {
      if !writable {
        return;
      }
      var before := marks;
      var todo := before.Keys;
      while todo != {}
        invariant todo <= before.Keys
        invariant marks == map slug | slug in before && (slug in todo || !(prune.Allows(slug) && !Listed(items, slug)))
                             :: before[slug]
        decreases todo
      {
        var slug :| slug in todo;
        var listed := IsListed(items, slug);
        if prune.Allows(slug) && !listed {
          marks := marks - {slug};
        }
        todo := todo - {slug};
      }
      ghost var base := marks;
      assert base == Pruned(before, items, prune);
      for i := 0 to |showing|
        invariant marks == MarkAll(base, before, showing[..i], now, ack)
      {
        var item := showing[i];
        var kept := item.slug in before && before[item.slug].fp == item.fp && before[item.slug].acked;
        marks := marks[item.slug := Mark(item.fp, now, kept || (ack && item.kind == Report))];
        assert showing[..i + 1][..i] == showing[..i];
      }
      assert showing[..|showing|] == showing;
    }

    /** One session: the new items in full, the due ones as reminders. An
        unreadable store has no marks, and a headless session writes none. */
    method SessionNotice(items: seq<Item>, now: nat, headed: bool, prune: Prune, readable: bool, writable: bool)
      returns (full: seq<Item>, due: seq<Item>)
      modifies this
      ensures var read := if readable then old(marks) else map[];
        full == Showing(items, read, now, Full) && due == Showing(items, read, now, Compact)
      ensures marks ==
        if headed && writable then WrittenMarks(old(marks), items, full + due, now, false, prune) else old(marks)
    {
      full, due := [], [];
      var read: Marks := if readable then marks else map[];
      for i := 0 to |items|
        invariant full == Showing(items[..i], read, now, Full) && due == Showing(items[..i], read, now, Compact)
        invariant marks == old(marks)
      {
        assert items[..i + 1][..i] == items[..i];
        match Decide(items[i], MarkOf(read, items[i].slug), now)
        case Full => full := full + [items[i]];
        case Compact => due := due + [items[i]];
        case Hide =>
      }
      assert items[..|items|] == items;
      if headed {
        WriteMarks(items, full + due, now, false, prune, writable);
      }
    }

    /** `playbook migrate` printed `items` to a person. */
    method Acknowledge(items: seq<Item>, now: nat, writable: bool)
      modifies this
      ensures marks ==
        if writable then WrittenMarks(old(marks), items, items, now, true, PRUNE_NONE) else old(marks)
    {
      WriteMarks(items, items, now, true, PRUNE_NONE, writable);
    }
  }

  method IsListed(items: seq<Item>, slug: string) returns (listed: bool)
    ensures listed == Listed(items, slug)
  {
    listed := false;
    for i := 0 to |items|
      invariant listed == Listed(items[..i], slug)
    {
      assert forall k :: 0 <= k < i ==> items[..i + 1][k] == items[..i][k];
      if items[i].slug == slug {
        assert items[..i + 1][i].slug == slug;
        listed := true;
      }
    }
    assert items[..|items|] == items;
  }

  /** The items of a list a session shows in one way. */
  function Showing(items: seq<Item>, marks: Marks, now: nat, show: Show): (r: seq<Item>)
    ensures forall k :: 0 <= k < |r| ==> r[k] in items && Decide(r[k], MarkOf(marks, r[k].slug), now) == show
  {
    if items == [] then []
    else
      var (front, last) := (items[..|items| - 1], items[|items| - 1]);
      Showing(front, marks, now, show) +
      if Decide(last, MarkOf(marks, last.slug), now) == show then [last] else []
  }

  lemma {:induction false} ShowingHolds(items: seq<Item>, marks: Marks, now: nat, show: Show, item: Item)
    requires item in items && Decide(item, MarkOf(marks, item.slug), now) == show
    ensures item in Showing(items, marks, now, show)
  {
    var (front, last) := (items[..|items| - 1], items[|items| - 1]);
    if item != last {
      ShowingHolds(front, marks, now, show, item);
    }
  }

  // ---- What one write keeps.

  /** Every item with this slug is this one: its fingerprint did not change. */
  ghost predicate Unchanged(items: seq<Item>, item: Item) {
    forall i :: 0 <= i < |items| && items[i].slug == item.slug ==> items[i] == item
  }

  ghost predicate Settled(marks: Marks, item: Item) {
    item.slug in marks && marks[item.slug].fp == item.fp && marks[item.slug].acked
  }

  ghost predicate Within(showing: seq<Item>, items: seq<Item>) {
    forall i :: 0 <= i < |showing| ==> showing[i] in items
  }

  lemma ListedWithin(showing: seq<Item>, items: seq<Item>, slug: string)
    requires Within(showing, items) && Listed(showing, slug)
    ensures Listed(items, slug)
  {
    var i :| 0 <= i < |showing| && showing[i].slug == slug;
    var k :| 0 <= k < |items| && items[k] == showing[i];
  }

  /** An acknowledged item survives a write exactly when the list of that write
      holds its slug or its prune rule does not allow the slug. */
  lemma AckSurvivesExactly(
    marks: Marks, items: seq<Item>, showing: seq<Item>, now: nat, ack: bool, prune: Prune, item: Item)
    requires Settled(marks, item) && Unchanged(items, item) && Within(showing, items)
    ensures Settled(WrittenMarks(marks, items, showing, now, ack, prune), item) <==>
      Listed(items, item.slug) || !prune.Allows(item.slug)
  {
    MarkAllAt(Pruned(marks, items, prune), marks, showing, now, ack, item.slug);
    if Listed(showing, item.slug) {
      ListedWithin(showing, items, item.slug);
      forall i | 0 <= i < |showing| && showing[i].slug == item.slug ensures showing[i] == item {
        var k :| 0 <= k < |items| && items[k] == showing[i];
      }
    }
  }

  lemma SlugsDiffer()
    ensures PLUGIN_STALE_SESSION != PLUGIN_NEEDS_BINARY && PLUGIN_STALE_SESSION != PLUGIN_RANGE
  {
    assert PLUGIN_STALE_SESSION[7] != PLUGIN_NEEDS_BINARY[7];
    assert PLUGIN_STALE_SESSION[7] != PLUGIN_RANGE[7];
  }

  /** The rule named for dropping nothing still drops the two plugin version
      slugs, and no other. */
  lemma PruneNoneAllows(slug: string)
    ensures PRUNE_NONE.Allows(slug) <==> slug == PLUGIN_NEEDS_BINARY || slug == PLUGIN_RANGE
  {
    SlugsDiffer();
  }

  /** A list that knows the session drops the stale session too, and one that knows
      the migrations drops all slugs but those three. */
  lemma PruneAllows(prune: Prune, slug: string)
    ensures prune.Allows(slug) <==>
      || PRUNE_NONE.Allows(slug)
      || (prune.sessionPlugin && slug == PLUGIN_STALE_SESSION)
      || (prune.migrations && slug != PLUGIN_STALE_SESSION)
  {
    SlugsDiffer();
  }
}
