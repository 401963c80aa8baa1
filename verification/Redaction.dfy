/** The redaction of shared replays (internal/session/service.go) and its interplay with the timeline. */
module Redaction {
  import opened Prelude
  import opened Rrweb
  import opened Timeline

  /** The events of a public replay: everything but plugin events, in order. */
  function Public(events: seq<RawEvent>): seq<RawEvent> {
    if events == [] then []
    else
      var front, last := Public(events[..|events| - 1]), events[|events| - 1];
      if last.kind == PLUGIN then front else front + [last]
  }

  /** The in-place filter of `GetPublicEvents`: the kept events move to the front of the array. */
  method KeepPublic(events: array<RawEvent>) returns (n: nat)
    modifies events
    ensures n <= events.Length && events[..n] == Public(old(events[..]))
  {
    n := 0;
    ghost var all := events[..];
    for i := 0 to events.Length
      invariant n <= i
      invariant events[..n] == Public(all[..i])
      invariant forall k :: i <= k < events.Length ==> events[k] == all[k]
    {
      assert all[..i + 1][..i] == all[..i];
      if events[i].kind != PLUGIN {
        events[n] := events[i];
        n := n + 1;
      }
    }
    assert all[..events.Length] == all;
  }

  /** The filter keeps exactly the non-plugin events, with their multiplicities. */
  lemma {:induction false} PublicKeepsExactly(events: seq<RawEvent>, e: RawEvent)
    ensures multiset(Public(events))[e] == if e.kind == 6 then 0 else multiset(events)[e]
  {
    if events != [] {
      PublicKeepsExactly(events[..|events| - 1], e);
      assert events == events[..|events| - 1] + [events[|events| - 1]];
    }
  }

  /** The kinds a public timeline may show. */
  predicate Visible(kind: Kind) {
    kind == Click || kind == Navigate || kind == Input
  }

  /** The visible items, each pointing at its event's place among the public events. */
  function Renumbered(items: seq<Item>, events: seq<RawEvent>): seq<Item> {
    if items == [] then []
    else
      var front, last := Renumbered(items[..|items| - 1], events), items[|items| - 1];
      if Visible(last.kind) && last.eventIndex <= |events|
      then front + [last.(eventIndex := |Public(events[..last.eventIndex])|)]
      else front
  }

  /** Plugin events bring no nodes, so redaction does not change the index. */
  lemma {:induction false} SameNodes(events: seq<RawEvent>)
    ensures AllNodes(Public(events)) == AllNodes(events)
  {
    if events != [] {
      var front, last := events[..|events| - 1], events[|events| - 1];
      SameNodes(front);
      if last.kind == PLUGIN {
        assert TreesOf(last) == [];
      } else {
        assert Public(events)[..|Public(front)|] == Public(front);
      }
    }
  }

  /** Only console items come from plugin events, and they come from no other. */
  lemma {:induction false} ItemVisibleIff(lower: string -> string, nodes: Index, e: RawEvent, i: nat)
    ensures ItemOf(lower, nodes, e, i).Some? ==> (Visible(ItemOf(lower, nodes, e, i).value.kind) <==> e.kind != PLUGIN)
    ensures ItemOf(lower, nodes, e, i).Some? ==> ItemOf(lower, nodes, e, i).value.eventIndex == i
    ensures forall j: nat :: ItemOf(lower, nodes, e, j) ==
                             if ItemOf(lower, nodes, e, i).None? then None else Some(ItemOf(lower, nodes, e, i).value.(eventIndex := j))
  {
  }

  lemma {:induction false} ItemsIndexed(lower: string -> string, nodes: Index, events: seq<RawEvent>)
    ensures forall k :: 0 <= k < |ItemsOf(lower, nodes, events)| ==> ItemsOf(lower, nodes, events)[k].eventIndex < |events|
  {
    if events != [] {
      var n := |events| - 1;
      ItemsIndexed(lower, nodes, events[..n]);
      ItemVisibleIff(lower, nodes, events[n], n);
    }
  }

  /** Renumbering looks only at the events before each item. */
  lemma {:induction false} RenumberedPrefix(items: seq<Item>, events: seq<RawEvent>, n: nat)
    requires n <= |events|
    requires forall k :: 0 <= k < |items| ==> items[k].eventIndex < n
    ensures Renumbered(items, events[..n]) == Renumbered(items, events)
  {
    if items != [] {
      var last := items[|items| - 1];
      RenumberedPrefix(items[..|items| - 1], events, n);
      assert events[..n][..last.eventIndex] == events[..last.eventIndex];
    }
  }

  lemma {:induction false} RenumberedAppendOne(items: seq<Item>, item: Item, events: seq<RawEvent>)
    ensures Renumbered(items + [item], events) ==
            Renumbered(items, events) +
            if Visible(item.kind) && item.eventIndex <= |events|
            then [item.(eventIndex := |Public(events[..item.eventIndex])|)] else []
  {
    assert (items + [item])[..|items|] == items;
  }

  lemma {:induction false} ItemsSnoc(lower: string -> string, nodes: Index, events: seq<RawEvent>, e: RawEvent)
    ensures ItemsOf(lower, nodes, events + [e]) == ItemsOf(lower, nodes, events) + OneItem(ItemOf(lower, nodes, e, |events|))
  {
    assert (events + [e])[..|events|] == events;
  }

  lemma {:induction false} ItemsCommute(lower: string -> string, nodes: Index, events: seq<RawEvent>)
    ensures ItemsOf(lower, nodes, Public(events)) == Renumbered(ItemsOf(lower, nodes, events), events)
  {
    if events != [] {
      var n := |events| - 1;
      var front, last := events[..n], events[n];
      ItemsCommute(lower, nodes, front);
      ItemsIndexed(lower, nodes, front);
      RenumberedPrefix(ItemsOf(lower, nodes, front), events, n);
      LastCommutes(lower, nodes, events, ItemsOf(lower, nodes, front));
      if last.kind != PLUGIN {
        ItemsSnoc(lower, nodes, Public(front), last);
      }
    }
  }

  /** The last event's item under renumbering. */
  lemma {:induction false} LastCommutes(lower: string -> string, nodes: Index, events: seq<RawEvent>, items: seq<Item>)
    requires events != []
    ensures
      var n := |events| - 1;
      Renumbered(items + OneItem(ItemOf(lower, nodes, events[n], n)), events) ==
      Renumbered(items, events) +
      if events[n].kind == PLUGIN then [] else OneItem(ItemOf(lower, nodes, events[n], |Public(events[..n])|))
  {
    var n := |events| - 1;
    ItemVisibleIff(lower, nodes, events[n], n);
    var item := ItemOf(lower, nodes, events[n], n);
    if item.Some? {
      RenumberedAppendOne(items, item.value, events);
    } else {
      assert items + [] == items;
    }
  }

  /** Redaction commutes with extraction: the timeline of the public events is the click, navigation
      and input items of the full timeline, renumbered. */
  lemma {:induction false} RedactionCommutes(lower: string -> string, events: seq<RawEvent>)
    ensures Built(lower, Public(events)) == Renumbered(Built(lower, events), events)
  {
    SameNodes(events);
    ItemsCommute(lower, Written(map[], AllNodes(events)), events);
  }

  /** No console item, so no error or warning badge, survives in a public timeline. */
  lemma {:induction false} NoConsoleInPublic(lower: string -> string, events: seq<RawEvent>, k: nat)
    requires k < |Built(lower, Public(events))|
    ensures Visible(Built(lower, Public(events))[k].kind)
  {
    RedactionCommutes(lower, events);
    RenumberedVisible(Built(lower, events), events);
  }

  lemma {:induction false} RenumberedVisible(items: seq<Item>, events: seq<RawEvent>)
    ensures forall k :: 0 <= k < |Renumbered(items, events)| ==> Visible(Renumbered(items, events)[k].kind)
  {
    if items != [] { RenumberedVisible(items[..|items| - 1], events); }
  }

  /** A renumbered item points at the same event as the original. */
  lemma {:induction false} RenumberingPointsHome(events: seq<RawEvent>, i: nat)
    requires i < |events| && events[i].kind != PLUGIN
    ensures |Public(events[..i])| < |Public(events)| && Public(events)[|Public(events[..i])|] == events[i]
    decreases |events|
  {
    var n := |events| - 1;
    if i < n {
      RenumberingPointsHome(events[..n], i);
      assert events[..n][..i] == events[..i];
    }
  }
}
