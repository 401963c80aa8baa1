/** Where the nodes of a recording stand, and what that makes of the timeline's node index
    (packages/dashboard/src/lib/timeline.ts). A position is the number of an event, the number of a tree
    the event brings, and then child numbers from that tree's root down; positions are ordered
    lexicographically, which is recording order and then document order. */
module DocumentOrder {
  import opened Prelude
  import opened Rrweb
  import opened Timeline

  // ---------------------------------------------------------------------------------------------
  // Positions

  /** The node reached from `n` through its children, if there is one. */
  function ChildAt(n: Node, path: seq<nat>): Option<Node>
    decreases |path|
  {
    if n.Absent? then None
    else if path == [] then Some(n)
    else if path[0] < |n.childNodes| then ChildAt(n.childNodes[path[0]], path[1..])
    else None
  }

  /** `root` is the k-th tree the event brings: the node of a full snapshot, or what a mutation adds. */
  ghost predicate IsTree(e: RawEvent, k: nat, root: Node) {
    && e.data.Data?
    && (|| (e.kind == 2 && k == 0 && e.data.node == Some(root))
        || (e.kind == 3 && e.data.source == Some(0) && e.data.adds.Some? && k < |e.data.adds.value| && e.data.adds.value[k] == root))
  }

  /** The recording has this node at this position. */
  ghost predicate PlacedAt(events: seq<RawEvent>, at: seq<nat>, n: Node) {
    2 <= |at| && at[0] < |events| && exists root :: IsTree(events[at[0]], at[1], root) && ChildAt(root, at[2..]) == Some(n)
  }

  predicate Earlier(a: seq<nat>, b: seq<nat>) {
    b != [] && (a == [] || a[0] < b[0] || (a[0] == b[0] && Earlier(a[1..], b[1..])))
  }

  /** An element or a text node with this id. */
  ghost predicate Labelled(n: Node, id: int) {
    n.Node? && n.id == Some(id) && (n.kind == 2 || n.kind == 3)
  }

  // ---------------------------------------------------------------------------------------------
  // Listing the nodes of a recording with their positions

  datatype Placed = Placed(at: seq<nat>, node: Node)

  function Under(i: nat, ps: seq<Placed>): (r: seq<Placed>)
    ensures |r| == |ps| && forall k :: 0 <= k < |r| ==> r[k] == Placed([i] + ps[k].at, ps[k].node)
  {
    seq(|ps|, k requires 0 <= k < |ps| => Placed([i] + ps[k].at, ps[k].node))
  }

  function Listed(n: Node): seq<Placed>
    decreases n, 1
  {
    match n
    case Absent => []
    case Node(_, _, _, _, _, children) => [Placed([], n)] + ListedAll(children, 0)
  }

  /** The nodes of a list of trees, the first of which is number `i`. */
  function ListedAll(ns: seq<Node>, i: nat): seq<Placed>
    decreases ns, 0
  {
    if ns == [] then [] else Under(i, Listed(ns[0])) + ListedAll(ns[1..], i + 1)
  }

  function ListedEvents(events: seq<RawEvent>): seq<Placed> {
    if events == [] then []
    else
      var n := |events| - 1;
      ListedEvents(events[..n]) + Under(n, ListedAll(TreesOf(events[n]), 0))
  }

  function NodesIn(ps: seq<Placed>): (r: seq<Node>)
    ensures |r| == |ps| && forall k :: 0 <= k < |r| ==> r[k] == ps[k].node
  {
    seq(|ps|, k requires 0 <= k < |ps| => ps[k].node)
  }

  ghost predicate InOrder(ps: seq<Placed>) {
    forall j, k :: 0 <= j < k < |ps| ==> Earlier(ps[j].at, ps[k].at)
  }

  ghost predicate Has(ps: seq<Placed>, at: seq<nat>, n: Node) {
    exists k :: 0 <= k < |ps| && ps[k] == Placed(at, n)
  }

  lemma {:induction false} UnderInOrder(i: nat, ps: seq<Placed>)
    requires InOrder(ps)
    ensures InOrder(Under(i, ps))
  {
    var r := Under(i, ps);
    forall j, k | 0 <= j < k < |r|
      ensures Earlier(r[j].at, r[k].at)
    {
      assert r[j].at[1..] == ps[j].at && r[k].at[1..] == ps[k].at;
    }
  }

  lemma {:induction false} UnderHas(i: nat, ps: seq<Placed>, at: seq<nat>, n: Node)
    ensures Has(Under(i, ps), at, n) <==> at != [] && at[0] == i && Has(ps, at[1..], n)
  {
    if Has(Under(i, ps), at, n) {
      var k :| 0 <= k < |ps| && Under(i, ps)[k] == Placed(at, n);
      assert at[1..] == ps[k].at;
      assert ps[k] == Placed(at[1..], n);
    }
    if at != [] && at[0] == i && Has(ps, at[1..], n) {
      var k :| 0 <= k < |ps| && ps[k] == Placed(at[1..], n);
      assert [i] + at[1..] == at;
      assert Under(i, ps)[k] == Placed(at, n);
    }
  }

  lemma {:induction false} HasAppend(a: seq<Placed>, b: seq<Placed>, at: seq<nat>, n: Node)
    ensures Has(a + b, at, n) <==> Has(a, at, n) || Has(b, at, n)
  {
    if Has(a, at, n) {
      var k :| 0 <= k < |a| && a[k] == Placed(at, n);
      assert (a + b)[k] == Placed(at, n);
    }
    if Has(b, at, n) {
      var k :| 0 <= k < |b| && b[k] == Placed(at, n);
      assert (a + b)[|a| + k] == Placed(at, n);
    }
  }

  lemma {:induction false} AppendInOrder(a: seq<Placed>, b: seq<Placed>)
    requires InOrder(a) && InOrder(b)
    requires forall j, k :: 0 <= j < |a| && 0 <= k < |b| ==> Earlier(a[j].at, b[k].at)
    ensures InOrder(a + b)
  {
  }

  /** The listing of a tree holds each of its nodes at its path, and is in order. */
  lemma {:induction false} ListedIs(n: Node)
    ensures InOrder(Listed(n))
    ensures forall at, x :: Has(Listed(n), at, x) <==> ChildAt(n, at) == Some(x)
    decreases n, 1
  {
    if n.Node? {
      var rest := ListedAll(n.childNodes, 0);
      ListedAllIs(n.childNodes, 0);
      StartsLater(n.childNodes, 0);
      AppendInOrder([Placed([], n)], rest);
      forall at, x
        ensures Has(Listed(n), at, x) <==> ChildAt(n, at) == Some(x)
      {
        HasAppend([Placed([], n)], rest, at, x);
        assert Has([Placed([], n)], at, x) <==> at == [] && x == n by {
          assert [Placed([], n)][0] == Placed([], n);
        }
        assert Has(rest, at, x) <==> InTrees(n.childNodes, 0, at, x);
      }
    }
  }

  /** The node is in one of the trees, the first of which is number `i`. */
  ghost predicate InTrees(ns: seq<Node>, i: nat, at: seq<nat>, x: Node) {
    at != [] && i <= at[0] < i + |ns| && ChildAt(ns[at[0] - i], at[1..]) == Some(x)
  }

  lemma {:induction false} StartsLater(ns: seq<Node>, i: nat)
    ensures forall k :: 0 <= k < |ListedAll(ns, i)| ==> ListedAll(ns, i)[k].at != [] && i <= ListedAll(ns, i)[k].at[0]
  {
    if ns != [] { StartsLater(ns[1..], i + 1); }
  }

  lemma {:induction false} ListedAllIs(ns: seq<Node>, i: nat)
    ensures InOrder(ListedAll(ns, i))
    ensures forall at, x :: Has(ListedAll(ns, i), at, x) <==> InTrees(ns, i, at, x)
    decreases ns, 0
  {
    if ns != [] {
      var first, rest := Under(i, Listed(ns[0])), ListedAll(ns[1..], i + 1);
      ListedIs(ns[0]);
      ListedAllIs(ns[1..], i + 1);
      UnderInOrder(i, Listed(ns[0]));
      StartsLater(ns[1..], i + 1);
      AppendInOrder(first, rest);
      forall at, x
        ensures Has(ListedAll(ns, i), at, x) <==> InTrees(ns, i, at, x)
      {
        HasAppend(first, rest, at, x);
        UnderHas(i, Listed(ns[0]), at, x);
        assert Has(rest, at, x) <==> InTrees(ns[1..], i + 1, at, x);
      }
    }
  }

  lemma {:induction false} TreesAre(e: RawEvent, k: nat, root: Node)
    ensures IsTree(e, k, root) <==> k < |TreesOf(e)| && TreesOf(e)[k] == root
  {
  }

  /** The listing of a recording holds each of its nodes at its position, and is in order. */
  lemma {:induction false} ListedEventsIs(events: seq<RawEvent>)
    ensures InOrder(ListedEvents(events))
    ensures forall at, x :: Has(ListedEvents(events), at, x) <==> PlacedAt(events, at, x)
  {
    if events != [] {
      var n := |events| - 1;
      var front, trees := ListedEvents(events[..n]), TreesOf(events[n]);
      var last := Under(n, ListedAll(trees, 0));
      ListedEventsIs(events[..n]);
      ListedAllIs(trees, 0);
      UnderInOrder(n, ListedAll(trees, 0));
      forall j, k | 0 <= j < |front| && 0 <= k < |last|
        ensures Earlier(front[j].at, last[k].at)
      {
        assert Has(front, front[j].at, front[j].node);
        assert PlacedAt(events[..n], front[j].at, front[j].node);
      }
      AppendInOrder(front, last);
      forall at, x
        ensures Has(ListedEvents(events), at, x) <==> PlacedAt(events, at, x)
      {
        HasAppend(front, last, at, x);
        UnderHas(n, ListedAll(trees, 0), at, x);
        LastEventHas(events, at, x);
      }
    }
  }

  /** A node of the recording is in an event before the last, or in a tree of the last. */
  lemma {:induction false} LastEventHas(events: seq<RawEvent>, at: seq<nat>, x: Node)
    requires events != []
    ensures
      var n := |events| - 1;
      PlacedAt(events, at, x) <==>
      PlacedAt(events[..n], at, x) || (at != [] && at[0] == n && InTrees(TreesOf(events[n]), 0, at[1..], x))
  {
    var n := |events| - 1;
    if 2 <= |at| && at[0] <= n {
      assert at[1..][0] == at[1] && at[1..][1..] == at[2..];
      if at[0] < n {
        assert events[..n][at[0]] == events[at[0]];
      } else {
        var trees := TreesOf(events[n]);
        if PlacedAt(events, at, x) {
          var root :| IsTree(events[n], at[1], root) && ChildAt(root, at[2..]) == Some(x);
          TreesAre(events[n], at[1], root);
        }
        if InTrees(trees, 0, at[1..], x) {
          TreesAre(events[n], at[1], trees[at[1]]);
        }
      }
    }
  }

  // ---------------------------------------------------------------------------------------------
  // The index

  lemma {:induction false} NodesInAppend(a: seq<Placed>, b: seq<Placed>)
    ensures NodesIn(a + b) == NodesIn(a) + NodesIn(b)
  {
  }

  lemma {:induction false} NodesInUnder(i: nat, ps: seq<Placed>)
    ensures NodesIn(Under(i, ps)) == NodesIn(ps)
  {
  }

  function IndexableOf(ns: seq<Node>): seq<Node> {
    if ns == [] then []
    else IndexableOf(ns[..|ns| - 1]) + if Indexable(ns[|ns| - 1]) then [ns[|ns| - 1]] else []
  }

  lemma {:induction false} IndexableOfAppend(a: seq<Node>, b: seq<Node>)
    ensures IndexableOf(a + b) == IndexableOf(a) + IndexableOf(b)
    decreases |b|
  {
    if b == [] {
      assert a + b == a;
    } else {
      IndexableOfAppend(a, b[..|b| - 1]);
      assert (a + b)[..|a + b| - 1] == a + b[..|b| - 1];
    }
  }

  lemma {:induction false} WrittenIndexable(m: Index, ns: seq<Node>)
    ensures Written(m, IndexableOf(ns)) == Written(m, ns)
  {
    if ns != [] {
      var front, last := ns[..|ns| - 1], ns[|ns| - 1];
      WrittenIndexable(m, front);
      if Indexable(last) {
        assert (IndexableOf(front) + [last])[..|IndexableOf(front)|] == IndexableOf(front);
      } else {
        assert IndexableOf(front) + [] == IndexableOf(front);
      }
    }
  }

  lemma {:induction false} NodesAreListed(n: Node)
    ensures NodesOf(n) == IndexableOf(NodesIn(Listed(n)))
    decreases n, 1
  {
    if n.Node? {
      var rest := ListedAll(n.childNodes, 0);
      NodesInAppend([Placed([], n)], rest);
      assert NodesIn([Placed([], n)]) == [n] && [n][..0] == [];
      IndexableOfAppend([n], NodesIn(rest));
      NodesOfAllAreListed(n.childNodes, 0);
    }
  }

  lemma {:induction false} NodesOfAllAreListed(ns: seq<Node>, i: nat)
    ensures NodesOfAll(ns) == IndexableOf(NodesIn(ListedAll(ns, i)))
    decreases ns, 0
  {
    if ns != [] {
      var first, rest := Under(i, Listed(ns[0])), ListedAll(ns[1..], i + 1);
      NodesInAppend(first, rest);
      NodesInUnder(i, Listed(ns[0]));
      IndexableOfAppend(NodesIn(first), NodesIn(rest));
      NodesAreListed(ns[0]);
      NodesOfAllAreListed(ns[1..], i + 1);
    }
  }

  /** The nodes that are written into the index are the element and text nodes with an id, each once for
      each of its positions, in the order of the positions. */
  lemma {:induction false} AllNodesAreListed(events: seq<RawEvent>)
    ensures AllNodes(events) == IndexableOf(NodesIn(ListedEvents(events)))
  {
    if events != [] {
      var n := |events| - 1;
      var front, last := ListedEvents(events[..n]), ListedAll(TreesOf(events[n]), 0);
      AllNodesAreListed(events[..n]);
      NodesInAppend(front, Under(n, last));
      NodesInUnder(n, last);
      IndexableOfAppend(NodesIn(front), NodesIn(last));
      NodesOfAllAreListed(TreesOf(events[n]), 0);
    }
  }

  /** Of all the nodes of the recording with this id, this is the last. */
  ghost predicate LastPlaced(events: seq<RawEvent>, id: int, at: seq<nat>, n: Node) {
    && PlacedAt(events, at, n) && Labelled(n, id)
    && forall at', n' :: PlacedAt(events, at', n') && Labelled(n', id) ==> at' == at || Earlier(at', at)
  }

  /** The index of a recording by positions: it has an id if and only if an element or text node with the
      id is reached from a full snapshot or from what a mutation adds, and maps it to the last such node
      in recording and document order. */
  lemma {:induction false} IndexByPosition(events: seq<RawEvent>, id: int)
    ensures
      var index := Written(map[], AllNodes(events));
      && (id in index <==> exists at, n :: PlacedAt(events, at, n) && Labelled(n, id))
      && (id in index ==> exists at, n :: LastPlaced(events, id, at, n) && index[id] == InfoOf(n))
  {
    var ps, index := ListedEvents(events), Written(map[], AllNodes(events));
    ListedEventsIs(events);
    AllNodesAreListed(events);
    WrittenIndexable(map[], NodesIn(ps));
    IndexIsLastWriter(NodesIn(ps), id);
    if id in index {
      var k := WriterOf(NodesIn(ps), id);
      LastIsPlaced(events, id, k);
      assert PlacedAt(events, ps[k].at, ps[k].node) && Labelled(ps[k].node, id);
    }
    if exists at, n :: PlacedAt(events, at, n) && Labelled(n, id) {
      var at, n :| PlacedAt(events, at, n) && Labelled(n, id);
      assert Has(ps, at, n);
      var k :| 0 <= k < |ps| && ps[k] == Placed(at, n);
      SomeLast(NodesIn(ps), id, k);
    }
  }

  lemma {:induction false} LastIsPlaced(events: seq<RawEvent>, id: int, k: nat)
    requires LastWith(NodesIn(ListedEvents(events)), id, k)
    ensures LastPlaced(events, id, ListedEvents(events)[k].at, ListedEvents(events)[k].node)
  {
    var ps := ListedEvents(events);
    ListedEventsIs(events);
    assert Has(ps, ps[k].at, ps[k].node);
    forall at', n' | PlacedAt(events, at', n') && Labelled(n', id)
      ensures at' == ps[k].at || Earlier(at', ps[k].at)
    {
      assert Has(ps, at', n');
      var j :| 0 <= j < |ps| && ps[j] == Placed(at', n');
      assert NodesIn(ps)[j] == n';
    }
  }

  lemma {:induction false} SomeLast(nodes: seq<Node>, id: int, k: nat)
    requires k < |nodes| && Indexable(nodes[k]) && nodes[k].id == Some(id)
    ensures exists j: nat :: LastWith(nodes, id, j)
    decreases |nodes| - k
  {
    if j :| k < j < |nodes| && Indexable(nodes[j]) && nodes[j].id == Some(id) {
      SomeLast(nodes, id, j);
    } else {
      assert LastWith(nodes, id, k);
    }
  }

  /** What the index says about a node, field by field. */
  lemma {:induction false} InfoSays(n: Node, id: int)
    requires Labelled(n, id)
    ensures
      var info := InfoOf(n);
      && (n.kind == 2 ==>
            && info.tag == n.tagName && info.text == Some(Label(n))
            && info.domId == (if "id" in n.attributes then Some(n.attributes["id"]) else None)
            && info.className == (if "class" in n.attributes then Some(n.attributes["class"]) else None)
            && info.aria == (if "aria-label" in n.attributes then Some(n.attributes["aria-label"]) else None)
            && info.name == (if "name" in n.attributes then Some(n.attributes["name"]) else None)
            && info.placeholder == (if "placeholder" in n.attributes then Some(n.attributes["placeholder"]) else None))
      && (n.kind == 3 ==>
            && info == NodeInfo(None, info.text, None, None, None, None, None)
            && info.text == Some(Spaced(Words(if n.textContent.Some? then n.textContent.value else ""))))
  {
    NormalizedIsWords(if n.textContent.Some? then n.textContent.value else "");
  }

  // ---------------------------------------------------------------------------------------------
  // The label of an element

  /** The texts among listed nodes, in order. */
  function TextsIn(ps: seq<Placed>): seq<string> {
    if ps == [] then []
    else
      var n := ps[|ps| - 1].node;
      TextsIn(ps[..|ps| - 1]) + if n.Node? && n.kind == 3 && n.textContent.Some? then [n.textContent.value] else []
  }

  lemma {:induction false} TextsInAppend(a: seq<Placed>, b: seq<Placed>)
    ensures TextsIn(a + b) == TextsIn(a) + TextsIn(b)
    decreases |b|
  {
    if b == [] {
      assert a + b == a;
    } else {
      TextsInAppend(a, b[..|b| - 1]);
      assert (a + b)[..|a + b| - 1] == a + b[..|b| - 1];
    }
  }

  lemma {:induction false} TextsInUnder(i: nat, ps: seq<Placed>)
    ensures TextsIn(Under(i, ps)) == TextsIn(ps)
  {
    if ps != [] {
      TextsInUnder(i, ps[..|ps| - 1]);
      assert Under(i, ps)[..|ps| - 1] == Under(i, ps[..|ps| - 1]);
    }
  }

  /** The texts of a tree are those of its text nodes, in document order. */
  lemma {:induction false} TextsAreListed(n: Node)
    ensures Texts(n) == TextsIn(Listed(n))
    decreases n, 1
  {
    if n.Node? {
      TextsInAppend([Placed([], n)], ListedAll(n.childNodes, 0));
      assert [Placed([], n)][..0] == [];
      TextsOfAllAreListed(n.childNodes, 0);
    }
  }

  lemma {:induction false} TextsOfAllAreListed(ns: seq<Node>, i: nat)
    ensures TextsOfAll(ns) == TextsIn(ListedAll(ns, i))
    decreases ns, 0
  {
    if ns != [] {
      TextsInAppend(Under(i, Listed(ns[0])), ListedAll(ns[1..], i + 1));
      TextsInUnder(i, Listed(ns[0]));
      TextsAreListed(ns[0]);
      TextsOfAllAreListed(ns[1..], i + 1);
    }
  }

  /** The label of an element: the words of its text nodes' texts in document order, as many of them as it
      takes to pass sixty characters, separated by single spaces. */
  lemma {:induction false} LabelIs(n: Node)
    ensures
      var texts := TextsIn(Listed(n));
      var k := Enough("", texts);
      && Label(n) == Spaced(Words(Flatten(texts[..k])))
      && (k < |texts| ==> 60 < |Flatten(texts[..k])|)
      && (forall m :: 0 <= m < k ==> |Flatten(texts[..m])| <= 60)
  {
    var texts := TextsIn(Listed(n));
    TextsAreListed(n);
    TakenIsShortestPrefix("", texts);
    NormalizedIsWords(Taken("", texts));
    assert forall m :: 0 <= m <= |texts| ==> "" + Flatten(texts[..m]) == Flatten(texts[..m]);
  }
}
