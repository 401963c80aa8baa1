/** The dashboard's timeline extraction (packages/dashboard/src/lib/timeline.ts): the early-exit text
    walk, the node index, and the items. */
module Timeline {
  import opened Prelude
  import opened Rrweb

  const NODE_ELEMENT := 2
  const NODE_TEXT := 3
  const SOURCE_MUTATION := 0
  const SOURCE_MOUSE_INTERACTION := 2
  const SOURCE_INPUT := 5
  const MOUSE_CLICK := 2
  const MOUSE_DBL_CLICK := 4
  const LABEL_LIMIT := 60

  // ---------------------------------------------------------------------------------------------
  // Text

  predicate IsSpace(c: char) {
    var n := c as int;
    || 9 <= n <= 13 || n == 32 || n == 160 || n == 0x1680 || 0x2000 <= n <= 0x200A
    || n == 0x2028 || n == 0x2029 || n == 0x202F || n == 0x205F || n == 0x3000 || n == 0xFEFF
  }

  function DropSpaces(s: string): (r: string)
    ensures |r| <= |s|
  {
    if s != "" && IsSpace(s[0]) then DropSpaces(s[1..]) else s
  }

  function DropSpacesBack(s: string): string {
    if s != "" && IsSpace(s[|s| - 1]) then DropSpacesBack(s[..|s| - 1]) else s
  }

  /** Every run of white space as one space. */
  function Collapsed(s: string): string
    decreases |s|
  {
    if s == "" then ""
    else if IsSpace(s[0]) then " " + Collapsed(DropSpaces(s[1..]))
    else [s[0]] + Collapsed(s[1..])
  }

  function Trimmed(s: string): string {
    DropSpacesBack(DropSpaces(s))
  }

  /** The longest prefix without white space. */
  function LeadingWord(s: string): (w: string)
    ensures |w| <= |s| && w == s[..|w|] && (forall i :: 0 <= i < |w| ==> !IsSpace(w[i]))
    ensures |w| < |s| ==> IsSpace(s[|w|])
  {
    if s == "" || IsSpace(s[0]) then "" else [s[0]] + LeadingWord(s[1..])
  }

  /** The maximal runs of characters that are not white space, in order. */
  function Words(s: string): (ws: seq<string>)
    ensures forall i :: 0 <= i < |ws| ==> ws[i] != "" && forall j :: 0 <= j < |ws[i]| ==> !IsSpace(ws[i][j])
    decreases |s|
  {
    if s == "" then []
    else if IsSpace(s[0]) then Words(s[1..])
    else [LeadingWord(s)] + Words(s[|LeadingWord(s)|..])
  }

  function Spaced(ws: seq<string>): string {
    if ws == [] then "" else if |ws| == 1 then ws[0] else ws[0] + " " + Spaced(ws[1..])
  }

  lemma {:induction false} DropSpacesKeepsWords(s: string)
    ensures Words(DropSpaces(s)) == Words(s)
    ensures DropSpaces(s) != "" ==> !IsSpace(DropSpaces(s)[0])
    ensures DropSpaces(s) != "" ==> s != "" && DropSpaces(s)[|DropSpaces(s)| - 1] == s[|s| - 1]
  {
    if s != "" && IsSpace(s[0]) { DropSpacesKeepsWords(s[1..]); }
  }

  function Lead(s: string): string { if s != "" && IsSpace(s[0]) then " " else "" }

  function Trail(s: string): string { if Words(s) != [] && IsSpace(s[|s| - 1]) then " " else "" }

  lemma {:induction false} CollapsedPrefix(w: string, rest: string)
    requires forall i :: 0 <= i < |w| ==> !IsSpace(w[i])
    ensures Collapsed(w + rest) == w + Collapsed(rest)
  {
    if w == "" {
      assert w + rest == rest;
    } else {
      CollapsedPrefix(w[1..], rest);
      assert (w + rest)[1..] == w[1..] + rest && (w + rest)[0] == w[0];
      assert [w[0]] + (w[1..] + Collapsed(rest)) == w + Collapsed(rest);
    }
  }

  lemma {:induction false} CollapsedWord(s: string)
    ensures Collapsed(s) == LeadingWord(s) + Collapsed(s[|LeadingWord(s)|..])
  {
    var w := LeadingWord(s);
    assert s == w + s[|w|..];
    CollapsedPrefix(w, s[|w|..]);
  }

  /** What collapsing should leave: the words separated by single spaces, with one before and one after
      where there was any. */
  function Tidied(s: string): string {
    Lead(s) + Spaced(Words(s)) + Trail(s)
  }

  lemma {:induction false} CollapsedIs(s: string)
    ensures Collapsed(s) == Tidied(s)
    decreases |s|
  {
    if s != "" {
      if IsSpace(s[0]) {
        CollapsedIs(DropSpaces(s[1..]));
        TidiedSpace(s);
      } else {
        CollapsedIs(s[|LeadingWord(s)|..]);
        CollapsedWord(s);
        TidiedWord(s);
      }
    }
  }

  lemma {:induction false} TidiedSpace(s: string)
    requires s != "" && IsSpace(s[0])
    ensures Tidied(s) == " " + Tidied(DropSpaces(s[1..]))
  {
    var t := DropSpaces(s[1..]);
    DropSpacesKeepsWords(s[1..]);
    assert Words(s) == Words(t) && Lead(t) == "";
    assert t != "" ==> s[|s| - 1] == t[|t| - 1];
    assert Trail(s) == Trail(t);
  }

  lemma {:induction false} TidiedWord(s: string)
    requires s != "" && !IsSpace(s[0])
    ensures Tidied(s) == LeadingWord(s) + Tidied(s[|LeadingWord(s)|..])
  {
    var w := LeadingWord(s);
    var rest := s[|w|..];
    if rest == "" {
      OneWord(s, w);
    } else if Words(rest) == [] {
      LastWord(s, w, rest);
    } else {
      WordAndMore(s, w, rest);
    }
  }

  lemma {:induction false} OneWord(s: string, w: string)
    requires s != "" && !IsSpace(s[0]) && w == LeadingWord(s) && s[|w|..] == ""
    ensures Tidied(s) == w + Tidied("")
  {
    assert s == w;
    assert Words(s) == [w] + Words("");
  }

  lemma {:induction false} LastWord(s: string, w: string, rest: string)
    requires s != "" && !IsSpace(s[0]) && w == LeadingWord(s) && s[|w|..] == rest && rest != "" && Words(rest) == []
    ensures Tidied(s) == w + Tidied(rest)
  {
    assert Words(s) == [w] + [];
    assert Spaced([w]) == w;
    NoWords(rest, |rest| - 1);
    assert s[|s| - 1] == rest[|rest| - 1];
    assert Lead(s) == "" && Trail(s) == " " && Lead(rest) == " " && Trail(rest) == "";
  }

  lemma {:induction false} WordAndMore(s: string, w: string, rest: string)
    requires s != "" && !IsSpace(s[0]) && w == LeadingWord(s) && s[|w|..] == rest && rest != "" && Words(rest) != []
    ensures Tidied(s) == w + Tidied(rest)
  {
    assert Words(s) == [w] + Words(rest);
    assert s[|s| - 1] == rest[|rest| - 1];
    assert Lead(s) == "" && Trail(s) == Trail(rest) && Lead(rest) == " ";
    SpacedOneMore(w, Words(rest));
    Joins(w, Spaced(Words(rest)), Trail(rest));
  }

  lemma {:induction false} SpacedOneMore(w: string, ws: seq<string>)
    requires ws != []
    ensures Spaced([w] + ws) == w + " " + Spaced(ws)
  {
    assert ([w] + ws)[1..] == ws;
  }

  lemma {:induction false} Joins(w: string, body: string, trail: string)
    ensures "" + (w + " " + body) + trail == w + (" " + body + trail)
  {
  }

  lemma {:induction false} NoWords(s: string, i: nat)
    requires Words(s) == [] && i < |s|
    ensures IsSpace(s[i])
  {
    if 0 < i { NoWords(s[1..], i - 1); }
  }

  lemma {:induction false} SpacedEnds(ws: seq<string>)
    requires forall i :: 0 <= i < |ws| ==> ws[i] != "" && forall j :: 0 <= j < |ws[i]| ==> !IsSpace(ws[i][j])
    ensures ws != [] ==> Spaced(ws) != "" && !IsSpace(Spaced(ws)[0]) && !IsSpace(Spaced(ws)[|Spaced(ws)| - 1])
  {
    if 1 < |ws| { SpacedEnds(ws[1..]); }
  }

  lemma {:induction false} TrimmedIs(body: string, lead: string, trail: string)
    requires lead == "" || lead == " "
    requires trail == "" || trail == " "
    requires body == "" ==> trail == ""
    requires body != "" ==> !IsSpace(body[0]) && !IsSpace(body[|body| - 1])
    ensures Trimmed(lead + body + trail) == body
  {
    var s := lead + body + trail;
    if lead == " " {
      assert s[1..] == body + trail;
    } else {
      assert s == body + trail;
    }
    assert DropSpaces(s) == body + trail;
    if trail == " " {
      assert IsSpace(' ') && (body + trail)[|body|] == ' ';
      assert (body + trail)[..|body|] == body;
      assert DropSpacesBack(body) == body;
    } else {
      assert body + trail == body;
    }
  }

  /** Normalising a text leaves exactly its words, separated by single spaces. */
  lemma {:induction false} NormalizedIsWords(s: string)
    ensures Trimmed(Collapsed(s)) == Spaced(Words(s))
  {
    CollapsedIs(s);
    SpacedEnds(Words(s));
    TrimmedIs(Spaced(Words(s)), Lead(s), Trail(s));
  }

  /** The texts of a node and its descendants, in document order. */
  function Texts(n: Node): seq<string>
    decreases n, 1
  {
    match n
    case Absent => []
    case Node(_, kind, _, _, text, children) =>
      (if kind == NODE_TEXT && text.Some? then [text.value] else []) + TextsOfAll(children)
  }

  function TextsOfAll(ns: seq<Node>): seq<string>
    decreases ns, 0
  {
    if ns == [] then [] else Texts(ns[0]) + TextsOfAll(ns[1..])
  }

  /** `out` with texts added until it is longer than the limit. */
  function Taken(out: string, texts: seq<string>): string
    decreases |texts|
  {
    if texts == [] || LABEL_LIMIT < |out| then out else Taken(out + texts[0], texts[1..])
  }

  /** The label of an element. */
  function Label(n: Node): string {
    Trimmed(Collapsed(Taken("", Texts(n))))
  }

  lemma {:induction false} TakenAppend(out: string, a: seq<string>, b: seq<string>)
    ensures Taken(out, a + b) == Taken(Taken(out, a), b)
    decreases |a|
  {
    if a == [] {
      assert a + b == b;
    } else {
      assert (a + b)[1..] == a[1..] + b;
      if |out| <= LABEL_LIMIT {
        TakenAppend(out + a[0], a[1..], b);
      }
    }
  }

  /** The length of the shortest prefix whose texts together pass the limit, or all of them. */
  function Enough(out: string, texts: seq<string>): (k: nat)
    ensures k <= |texts|
    decreases |texts|
  {
    if texts == [] || LABEL_LIMIT < |out| then 0 else 1 + Enough(out + texts[0], texts[1..])
  }

  /** The walk keeps exactly the concatenation of the shortest prefix, in document order, of the texts
      that passes the limit, or of all of them if none does. */
  lemma {:induction false} TakenIsShortestPrefix(out: string, texts: seq<string>)
    ensures
      var k := Enough(out, texts);
      && Taken(out, texts) == out + Flatten(texts[..k])
      && (k < |texts| ==> LABEL_LIMIT < |out + Flatten(texts[..k])|)
      && (forall m :: 0 <= m < k ==> |out + Flatten(texts[..m])| <= LABEL_LIMIT)
    decreases |texts|
  {
    var k := Enough(out, texts);
    if texts == [] || LABEL_LIMIT < |out| {
      assert texts[..k] == [];
      assert out + Flatten<char>([]) == out;
    } else {
      var out', rest := out + texts[0], texts[1..];
      TakenIsShortestPrefix(out', rest);
      forall m | 0 < m <= k
        ensures out + Flatten(texts[..m]) == out' + Flatten(rest[..m - 1])
      {
        assert texts[..m][1..] == rest[..m - 1] && texts[..m][0] == texts[0];
      }
      forall m | 0 <= m < k
        ensures |out + Flatten(texts[..m])| <= LABEL_LIMIT
      {
        if m == 0 { assert texts[..m] == []; }
      }
    }
  }

  lemma {:induction false} TextsOfAllSnoc(ns: seq<Node>, n: Node)
    ensures TextsOfAll(ns + [n]) == TextsOfAll(ns) + Texts(n)
  {
    if ns == [] {
      assert ns + [n] == [n];
      assert TextsOfAll([n]) == Texts(n) + TextsOfAll([n][1..]);
    } else {
      TextsOfAllSnoc(ns[1..], n);
      assert (ns + [n])[1..] == ns[1..] + [n];
      assert TextsOfAll(ns + [n]) == Texts(ns[0]) + (TextsOfAll(ns[1..]) + Texts(n));
    }
  }

  /** The recursive walk of `collectText`, with its accumulator. */
  method WalkText(n: Node, out: string) returns (r: string)
    ensures r == Taken(out, Texts(n))
    decreases n
  {
    r := out;
    if n.Absent? || LABEL_LIMIT < |out| {
      return;
    }
    var own := if n.kind == NODE_TEXT && n.textContent.Some? then [n.textContent.value] else [];
    if own != [] {
      r := r + own[0];
    }
    assert r == Taken(out, own);
    TakenAppend(out, own, TextsOfAll(n.childNodes));
    ghost var start := r;
    for i := 0 to |n.childNodes|
      invariant r == Taken(start, TextsOfAll(n.childNodes[..i]))
    {
      TextsOfAllSnoc(n.childNodes[..i], n.childNodes[i]);
      assert n.childNodes[..i + 1] == n.childNodes[..i] + [n.childNodes[i]];
      TakenAppend(start, TextsOfAll(n.childNodes[..i]), Texts(n.childNodes[i]));
      r := WalkText(n.childNodes[i], r);
    }
    assert n.childNodes[..|n.childNodes|] == n.childNodes;
  }

  method CollectText(n: Node) returns (r: string)
    ensures r == Label(n)
  {
    var out := WalkText(n, "");
    r := Trimmed(Collapsed(out));
  }

  // ---------------------------------------------------------------------------------------------
  // The node index

  datatype NodeInfo = NodeInfo(tag: Option<string>, text: Option<string>, domId: Option<string>, className: Option<string>,
                               aria: Option<string>, name: Option<string>, placeholder: Option<string>)

  function Attribute(n: Node, key: string): Option<string>
    requires n.Node?
  {
    if key in n.attributes then Some(n.attributes[key]) else None
  }

  function InfoOf(n: Node): NodeInfo
    requires n.Node?
  {
    if n.kind == NODE_ELEMENT then
      NodeInfo(n.tagName, Some(Label(n)), Attribute(n, "id"), Attribute(n, "class"),
               Attribute(n, "aria-label"), Attribute(n, "name"), Attribute(n, "placeholder"))
    else
      var text := if n.textContent.Some? then n.textContent.value else "";
      NodeInfo(None, Some(Trimmed(Collapsed(text))), None, None, None, None, None)
  }

  /** Whether the walk indexes this node: an element or text node with a numeric id. */
  predicate Indexable(n: Node) {
    n.Node? && n.id.Some? && (n.kind == NODE_ELEMENT || n.kind == NODE_TEXT)
  }

  /** The indexable nodes of a tree, in document order. */
  function NodesOf(n: Node): seq<Node>
    decreases n, 1
  {
    match n
    case Absent => []
    case Node(_, _, _, _, _, children) => (if Indexable(n) then [n] else []) + NodesOfAll(children)
  }

  function NodesOfAll(ns: seq<Node>): seq<Node>
    decreases ns, 0
  {
    if ns == [] then [] else NodesOf(ns[0]) + NodesOfAll(ns[1..])
  }

  /** The trees an event brings: the snapshot, or the nodes a mutation adds. */
  function TreesOf(e: RawEvent): seq<Node> {
    if e.data.NoData? then []
    else if e.kind == FULL_SNAPSHOT && e.data.node.Some? then [e.data.node.value]
    else if e.kind == INCREMENTAL && e.data.source == Some(SOURCE_MUTATION) && e.data.adds.Some? then e.data.adds.value
    else []
  }

  /** The indexable nodes of a recording, in document order over all snapshots and adds. */
  function AllNodes(events: seq<RawEvent>): seq<Node> {
    if events == [] then []
    else AllNodes(events[..|events| - 1]) + NodesOfAll(TreesOf(events[|events| - 1]))
  }

  type Index = map<int, NodeInfo>

  /** Writing the nodes into an index one after another. */
  function Written(m: Index, nodes: seq<Node>): Index {
    if nodes == [] then m
    else
      var before, n := Written(m, nodes[..|nodes| - 1]), nodes[|nodes| - 1];
      if Indexable(n) then before[n.id.value := InfoOf(n)] else before
  }

  lemma {:induction false} WrittenAppend(m: Index, a: seq<Node>, b: seq<Node>)
    ensures Written(m, a + b) == Written(Written(m, a), b)
    decreases |b|
  {
    if b == [] {
      assert a + b == a;
    } else {
      WrittenAppend(m, a, b[..|b| - 1]);
      assert (a + b)[..|a + b| - 1] == a + b[..|b| - 1];
    }
  }

  /** Node `k` is the last of `nodes` with this id. */
  ghost predicate LastWith(nodes: seq<Node>, id: int, k: nat) {
    && k < |nodes| && Indexable(nodes[k]) && nodes[k].id == Some(id)
    && forall j :: k < j < |nodes| && Indexable(nodes[j]) ==> nodes[j].id != Some(id)
  }

  lemma {:induction false} LastWriterWins(nodes: seq<Node>, id: int, k: nat)
    requires LastWith(nodes, id, k)
    ensures id in Written(map[], nodes) && Written(map[], nodes)[id] == InfoOf(nodes[k])
  {
    if k < |nodes| - 1 {
      LastWriterWins(nodes[..|nodes| - 1], id, k);
    }
  }

  lemma {:induction false} WriterOf(nodes: seq<Node>, id: int) returns (k: nat)
    requires id in Written(map[], nodes)
    ensures LastWith(nodes, id, k)
  {
    var last := nodes[|nodes| - 1];
    if Indexable(last) && last.id == Some(id) {
      k := |nodes| - 1;
    } else {
      k := WriterOf(nodes[..|nodes| - 1], id);
    }
  }

  /** The index maps each id to the last node with that id, and holds no other id. */
  lemma {:induction false} IndexIsLastWriter(nodes: seq<Node>, id: int)
    ensures id in Written(map[], nodes) <==> exists k: nat :: LastWith(nodes, id, k)
    ensures forall k: nat :: LastWith(nodes, id, k) && id in Written(map[], nodes) ==>
                               Written(map[], nodes)[id] == InfoOf(nodes[k])
  {
    if id in Written(map[], nodes) {
      var k := WriterOf(nodes, id);
    }
    forall k: nat | LastWith(nodes, id, k)
      ensures id in Written(map[], nodes) && Written(map[], nodes)[id] == InfoOf(nodes[k])
    {
      LastWriterWins(nodes, id, k);
    }
  }

  lemma {:induction false} NodesOfAllSnoc(ns: seq<Node>, n: Node)
    ensures NodesOfAll(ns + [n]) == NodesOfAll(ns) + NodesOf(n)
  {
    if ns == [] {
      assert ns + [n] == [n];
      assert NodesOfAll([n]) == NodesOf(n) + NodesOfAll([n][1..]);
    } else {
      NodesOfAllSnoc(ns[1..], n);
      assert (ns + [n])[1..] == ns[1..] + [n];
      assert NodesOfAll(ns + [n]) == NodesOf(ns[0]) + (NodesOfAll(ns[1..]) + NodesOf(n));
    }
  }

  /** The recursive `visit` of `indexNodes`. */
  method Visit(n: Node, m: Index) returns (r: Index)
    ensures r == Written(m, NodesOf(n))
    decreases n
  {
    r := m;
    if n.Absent? {
      return;
    }
    ghost var own := if Indexable(n) then [n] else [];
    if n.id.Some? {
      if n.kind == NODE_ELEMENT {
        var text := CollectText(n);
        r := r[n.id.value := NodeInfo(n.tagName, Some(text), Attribute(n, "id"), Attribute(n, "class"),
                                      Attribute(n, "aria-label"), Attribute(n, "name"), Attribute(n, "placeholder"))];
      } else if n.kind == NODE_TEXT {
        r := r[n.id.value := InfoOf(n)];
      }
    }
    assert r == Written(m, own) by {
      assert Indexable(n) ==> own[..0] == [];
    }
    r := VisitAll(n.childNodes, r, n);
    WrittenAppend(m, own, NodesOfAll(n.childNodes));
  }

  /** The nodes of a list, visited in order; `parent` holds them. */
  method VisitAll(ns: seq<Node>, m: Index, ghost parent: Node) returns (r: Index)
    requires parent.Node? && parent.childNodes == ns
    ensures r == Written(m, NodesOfAll(ns))
    decreases parent, 0
  {
    r := m;
    for i := 0 to |ns|
      invariant r == Written(m, NodesOfAll(ns[..i]))
    {
      NodesOfAllSnoc(ns[..i], ns[i]);
      assert ns[..i + 1] == ns[..i] + [ns[i]];
      WrittenAppend(m, NodesOfAll(ns[..i]), NodesOf(ns[i]));
      r := Visit(ns[i], r);
    }
    assert ns[..|ns|] == ns;
  }

  method IndexNodes(events: seq<RawEvent>) returns (r: Index)
    ensures r == Written(map[], AllNodes(events))
  {
    r := map[];
    for i := 0 to |events|
      invariant r == Written(map[], AllNodes(events[..i]))
    {
      var trees := TreesOf(events[i]);
      ghost var before := r;
      for k := 0 to |trees|
        invariant r == Written(before, NodesOfAll(trees[..k]))
      {
        NodesOfAllSnoc(trees[..k], trees[k]);
        assert trees[..k + 1] == trees[..k] + [trees[k]];
        WrittenAppend(before, NodesOfAll(trees[..k]), NodesOf(trees[k]));
        r := Visit(trees[k], r);
      }
      assert trees[..|trees|] == trees;
      assert events[..i + 1][..i] == events[..i];
      WrittenAppend(map[], AllNodes(events[..i]), NodesOfAll(trees));
    }
    assert events[..|events|] == events;
  }

  // ---------------------------------------------------------------------------------------------
  // Items

  datatype Kind = Error | Warn | Log | Info | Click | Navigate | Input

  datatype Item = Item(eventIndex: nat, kind: Kind, message: string, timestamp: int)

  function FirstWord(s: string): string {
    if s == "" || s[0] == ' ' then "" else [s[0]] + FirstWord(s[1..])
  }

  function OrElse(a: Option<string>, b: Option<string>): Option<string> {
    if a.Some? then a else b
  }

  predicate Filled(s: Option<string>) {
    s.Some? && s.value != ""
  }

  /** A readable name for a node id, or nothing; `lower` turns a tag name into lower case. */
  function DescribeNode(lower: string -> string, nodes: Index, id: Option<int>): string {
    if id.None? || id.value !in nodes then ""
    else
      var n := nodes[id.value];
      var tag := lower(if n.tag.Some? then n.tag.value else "element");
      var text := if n.text.Some? then (if |n.text.value| <= 40 then n.text.value else n.text.value[..40]) else "";
      var hint := OrElse(n.aria, OrElse(n.placeholder, n.name));
      if text != "" then tag + " \"" + text + "\""
      else if Filled(hint) then tag + " \"" + hint.value + "\""
      else if Filled(n.domId) then tag + "#" + n.domId.value
      else if Filled(n.className) then tag + "." + FirstWord(n.className.value)
      else tag
  }

  function LevelKind(level: string): Kind {
    if level == "error" || level == "assert" then Error
    else if level == "warn" then Warn
    else if level == "info" then Info
    else Log
  }

  function ArgText(a: ConsoleArg): string {
    match a
    case Other(text) => text
    case Quoted(text) =>
      if 2 <= |text| && text[0] == '"' && text[|text| - 1] == '"' then text[1..|text| - 1] else text
  }

  function Joined(args: seq<ConsoleArg>): string {
    if args == [] then ""
    else if |args| == 1 then ArgText(args[0])
    else ArgText(args[0]) + " " + Joined(args[1..])
  }

  function FormatArgs(args: ConsoleArgs): string {
    match args
    case Scalar(text) => text
    case Args(args) => Trimmed(Joined(args))
  }

  predicate Contains(s: string, part: string) {
    |part| <= |s| && (s[..|part|] == part || (s != "" && Contains(s[1..], part)))
  }

  /** The item an event gives, if any. */
  function ItemOf(lower: string -> string, nodes: Index, e: RawEvent, i: nat): Option<Item> {
    if e.data.NoData? then None
    else if e.kind == PLUGIN && e.data.plugin.Some? && Contains(e.data.plugin.value, "console") then
      var message := FormatArgs(e.data.args);
      var level := if e.data.level.Some? then e.data.level.value else "log";
      if message != "" then Some(Item(i, LevelKind(level), message, e.timestamp)) else None
    else if e.kind == META && e.data.href.Some? then
      Some(Item(i, Navigate, e.data.href.value, e.timestamp))
    else if e.kind == INCREMENTAL && e.data.source == Some(SOURCE_MOUSE_INTERACTION) then
      if e.data.interaction == Some(MOUSE_CLICK) || e.data.interaction == Some(MOUSE_DBL_CLICK) then
        var verb := if e.data.interaction == Some(MOUSE_DBL_CLICK) then "Double click" else "Click";
        var target := DescribeNode(lower, nodes, e.data.target);
        Some(Item(i, Click, if target != "" then verb + " on " + target else verb, e.timestamp))
      else None
    else if e.kind == INCREMENTAL && e.data.source == Some(SOURCE_INPUT) then
      var target := DescribeNode(lower, nodes, e.data.target);
      Some(Item(i, Input, if target != "" then "Typed in " + target else "User typed", e.timestamp))
    else None
  }

  function OneItem(item: Option<Item>): seq<Item> {
    if item.Some? then [item.value] else []
  }

  function ItemsOf(lower: string -> string, nodes: Index, events: seq<RawEvent>): seq<Item> {
    if events == [] then []
    else
      var n := |events| - 1;
      ItemsOf(lower, nodes, events[..n]) + OneItem(ItemOf(lower, nodes, events[n], n))
  }

  /** The timeline of a recording. */
  function Built(lower: string -> string, events: seq<RawEvent>): seq<Item> {
    ItemsOf(lower, Written(map[], AllNodes(events)), events)
  }

  /** Whether an event is shown: a console call with something to say, a navigation, a click or a double
      click, or an input. */
  predicate Shown(e: RawEvent) {
    && e.data.Data?
    && (|| (e.kind == PLUGIN && e.data.plugin.Some? && Contains(e.data.plugin.value, "console") && FormatArgs(e.data.args) != "")
        || (e.kind == META && e.data.href.Some?)
        || (e.kind == INCREMENTAL && e.data.source == Some(SOURCE_INPUT))
        || (e.kind == INCREMENTAL && e.data.source == Some(SOURCE_MOUSE_INTERACTION)
            && (e.data.interaction == Some(MOUSE_CLICK) || e.data.interaction == Some(MOUSE_DBL_CLICK))))
  }

  /** The item points at a shown event and carries its timestamp. */
  predicate PointsAt(item: Item, events: seq<RawEvent>) {
    item.eventIndex < |events| && Shown(events[item.eventIndex]) && item.timestamp == events[item.eventIndex].timestamp
  }

  /** Every item points at a shown event, later items at later events. */
  ghost predicate PointInOrder(items: seq<Item>, events: seq<RawEvent>) {
    && (forall k :: 0 <= k < |items| ==> PointsAt(items[k], events))
    && (forall j, k :: 0 <= j < k < |items| ==> items[j].eventIndex < items[k].eventIndex)
  }

  /** The items are shown events, at most one each, in the order of the recording, each with its
      event's position and timestamp. */
  lemma {:induction false} ItemsAreShownEvents(lower: string -> string, nodes: Index, events: seq<RawEvent>)
    ensures PointInOrder(ItemsOf(lower, nodes, events), events)
  {
    if events != [] {
      var n := |events| - 1;
      var front, items := ItemsOf(lower, nodes, events[..n]), ItemsOf(lower, nodes, events);
      ItemsAreShownEvents(lower, nodes, events[..n]);
      ShownIff(lower, nodes, events[n], n);
      forall k | 0 <= k < |items|
        ensures PointsAt(items[k], events)
        ensures k < |front| ==> items[k].eventIndex < n
      {
        if k < |front| {
          assert items[k] == front[k];
          assert PointsAt(front[k], events[..n]);
        }
      }
    }
  }

  /** And every shown event has its item. */
  lemma {:induction false} ShownEventsHaveItems(lower: string -> string, nodes: Index, events: seq<RawEvent>, i: nat)
    requires i < |events| && Shown(events[i])
    ensures exists k :: 0 <= k < |ItemsOf(lower, nodes, events)| && ItemsOf(lower, nodes, events)[k].eventIndex == i
    decreases |events|
  {
    var n := |events| - 1;
    var front, items := ItemsOf(lower, nodes, events[..n]), ItemsOf(lower, nodes, events);
    if i < n {
      ShownEventsHaveItems(lower, nodes, events[..n], i);
      var k :| 0 <= k < |front| && front[k].eventIndex == i;
      assert items[k].eventIndex == i;
    } else {
      ShownIff(lower, nodes, events[n], n);
      assert items[|front|].eventIndex == i;
    }
  }

  lemma {:induction false} ShownIff(lower: string -> string, nodes: Index, e: RawEvent, i: nat)
    ensures ItemOf(lower, nodes, e, i).Some? <==> Shown(e)
    ensures Shown(e) ==> ItemOf(lower, nodes, e, i).value.eventIndex == i && ItemOf(lower, nodes, e, i).value.timestamp == e.timestamp
  {
  }

  // ---------------------------------------------------------------------------------------------
  // What the items say

  lemma {:induction false} FirstWordIs(s: string)
    ensures
      var w := FirstWord(s);
      && |w| <= |s| && w == s[..|w|] && (forall i :: 0 <= i < |w| ==> w[i] != ' ')
      && (|w| < |s| ==> s[|w|] == ' ')
  {
    if s != "" && s[0] != ' ' { FirstWordIs(s[1..]); }
  }

  /** `part` stands somewhere in `s`. */
  ghost predicate Occurs(part: string, s: string) {
    exists i :: 0 <= i <= |s| && part <= s[i..]
  }

  lemma {:induction false} ContainsIff(s: string, part: string)
    ensures Contains(s, part) <==> Occurs(part, s)
  {
    if s != "" {
      ContainsIff(s[1..], part);
      if Occurs(part, s) {
        var i :| 0 <= i <= |s| && part <= s[i..];
        if i == 0 {
          assert s[0..] == s;
        } else {
          assert s[1..][i - 1..] == s[i..];
        }
      }
      if Occurs(part, s[1..]) {
        var i :| 0 <= i <= |s[1..]| && part <= s[1..][i..];
        assert s[i + 1..] == s[1..][i..];
      }
    }
    if Contains(s, part) && s[..|part|] == part {
      assert s[0..] == s;
    }
  }

  /** A name for a node, by what is known about it: its text first, cut at forty characters, then its label,
      placeholder or name, whichever is there first, then its id, then the first of its classes. */
  ghost predicate Names(target: string, tag: string, n: NodeInfo) {
    var text := if n.text.Some? then n.text.value else "";
    var hint := if n.aria.Some? then n.aria else if n.placeholder.Some? then n.placeholder else n.name;
    && (0 < |text| <= 40 ==> target == tag + " \"" + text + "\"")
    && (40 < |text| ==> target == tag + " \"" + text[..40] + "\"")
    && (text == "" && Filled(hint) ==> target == tag + " \"" + hint.value + "\"")
    && (text == "" && !Filled(hint) && Filled(n.domId) ==> target == tag + "#" + n.domId.value)
    && (text == "" && !Filled(hint) && !Filled(n.domId) && Filled(n.className) ==>
          exists w, rest :: target == tag + "." + w && n.className.value == w + rest && ' ' !in w && (rest == "" || rest[0] == ' '))
    && (text == "" && !Filled(hint) && !Filled(n.domId) && !Filled(n.className) ==> target == tag)
  }

  lemma {:induction false} TargetIsNamed(lower: string -> string, nodes: Index, id: Option<int>)
    ensures id.None? || id.value !in nodes ==> DescribeNode(lower, nodes, id) == ""
    ensures id.Some? && id.value in nodes ==>
              var n := nodes[id.value];
              Names(DescribeNode(lower, nodes, id), lower(if n.tag.Some? then n.tag.value else "element"), n)
  {
    if id.Some? && id.value in nodes && nodes[id.value].className.Some? {
      var c := nodes[id.value].className.value;
      FirstWordIs(c);
      assert c == FirstWord(c) + c[|FirstWord(c)|..];
    }
  }

  /** What an item says about its event. */
  ghost predicate Says(item: Item, e: RawEvent, target: string) {
    && e.data.Data?
    && (e.kind == 6 ==>
          && item.message == FormatArgs(e.data.args) && item.message != ""
          && e.data.plugin.Some? && Occurs("console", e.data.plugin.value)
          && (item.kind == Error <==> e.data.level == Some("error") || e.data.level == Some("assert"))
          && (item.kind == Warn <==> e.data.level == Some("warn"))
          && (item.kind == Info <==> e.data.level == Some("info"))
          && item.kind in {Error, Warn, Info, Log})
    && (e.kind == 4 ==> item.kind == Navigate && e.data.href == Some(item.message))
    && (e.kind == 3 ==> e.data.source == Some(2) || e.data.source == Some(5))
    && (e.kind == 3 && e.data.source == Some(2) ==>
          && item.kind == Click && (e.data.interaction == Some(2) || e.data.interaction == Some(4))
          && var verb := if e.data.interaction == Some(4) then "Double click" else "Click";
             item.message == if target == "" then verb else verb + " on " + target)
    && (e.kind == 3 && e.data.source == Some(5) ==>
          item.kind == Input && item.message == if target == "" then "User typed" else "Typed in " + target)
    && (e.kind == 3 || e.kind == 4 || e.kind == 6)
  }

  /** Every item of a timeline says what its event was: the level and text of a console call, the address of
      a navigation, the verb and the named target of a click or an input. */
  lemma {:induction false} ItemsSay(lower: string -> string, nodes: Index, events: seq<RawEvent>, k: nat)
    requires k < |ItemsOf(lower, nodes, events)|
    ensures
      var item := ItemsOf(lower, nodes, events)[k];
      && item.eventIndex < |events|
      && Says(item, events[item.eventIndex], DescribeNode(lower, nodes, Target(events[item.eventIndex])))
    decreases |events|
  {
    var n := |events| - 1;
    if k < |ItemsOf(lower, nodes, events[..n])| {
      ItemsSay(lower, nodes, events[..n], k);
    } else {
      ItemSays(lower, nodes, events[n], n);
    }
  }

  function Target(e: RawEvent): Option<int> {
    if e.data.Data? then e.data.target else None
  }

  lemma {:induction false} ItemSays(lower: string -> string, nodes: Index, e: RawEvent, i: nat)
    requires ItemOf(lower, nodes, e, i).Some?
    ensures
      var item := ItemOf(lower, nodes, e, i).value;
      item.eventIndex == i && Says(item, e, DescribeNode(lower, nodes, Target(e)))
  {
    if e.kind == 6 {
      ContainsIff(e.data.plugin.value, "console");
    }
  }

  /** A console call's text: each argument without the quotes rrweb has put around it, joined by spaces and
      trimmed; anything that is not a list of arguments as it is. */
  lemma {:induction false} ArgsAre(args: seq<ConsoleArg>, a: ConsoleArg, text: string)
    ensures FormatArgs(Scalar(text)) == text && FormatArgs(Args(args)) == Trimmed(Joined(args))
    ensures Joined([]) == "" && Joined([a]) == ArgText(a)
    ensures args != [] ==> Joined(args + [a]) == Joined(args) + " " + ArgText(a)
    ensures ArgText(Other(text)) == text && ArgText(Quoted("\"" + text + "\"")) == text
    ensures |text| < 2 || text[0] != '"' || text[|text| - 1] != '"' ==> ArgText(Quoted(text)) == text
  {
    var quoted := "\"" + text + "\"";
    assert quoted[1..|quoted| - 1] == text;
    if args != [] {
      JoinedSnoc(args, a);
    }
  }

  lemma {:induction false} JoinedSnoc(args: seq<ConsoleArg>, a: ConsoleArg)
    requires args != []
    ensures Joined(args + [a]) == Joined(args) + " " + ArgText(a)
  {
    assert (args + [a])[1..] == args[1..] + [a];
    if |args| == 1 {
      assert args[1..] + [a] == [a];
    } else {
      JoinedSnoc(args[1..], a);
      Reassociate(ArgText(args[0]), Joined(args[1..]), ArgText(a));
    }
  }

  lemma {:induction false} Reassociate(x: string, y: string, z: string)
    ensures x + " " + (y + " " + z) == (x + " " + y) + " " + z
  {
  }

  method BuildTimeline(lower: string -> string, events: seq<RawEvent>) returns (items: seq<Item>)
    ensures items == Built(lower, events)
  {
    items := [];
    var nodes := IndexNodes(events);
    for i := 0 to |events|
      invariant items == ItemsOf(lower, nodes, events[..i])
    {
      assert events[..i + 1][..i] == events[..i];
      match ItemOf(lower, nodes, events[i], i) {
        case None =>
        case Some(item) => items := items + [item];
      }
    }
    assert events[..|events|] == events;
  }

  function CountKind(items: seq<Item>, kind: Kind): nat {
    if items == [] then 0
    else CountKind(items[..|items| - 1], kind) + if items[|items| - 1].kind == kind then 1 else 0
  }

  ghost function OfKind(items: seq<Item>, kind: Kind): set<int> {
    set k | 0 <= k < |items| && items[k].kind == kind
  }

  lemma {:induction false} CountIs(items: seq<Item>, kind: Kind)
    ensures CountKind(items, kind) == |OfKind(items, kind)|
  {
    if items != [] {
      var n := |items| - 1;
      CountIs(items[..n], kind);
      assert OfKind(items, kind) == OfKind(items[..n], kind) + if items[n].kind == kind then {n} else {};
    }
  }

  method CountConsole(items: seq<Item>) returns (errors: nat, warnings: nat)
    ensures errors == |OfKind(items, Error)| && warnings == |OfKind(items, Warn)|
  {
    errors, warnings := 0, 0;
    for i := 0 to |items|
      invariant errors == CountKind(items[..i], Error) && warnings == CountKind(items[..i], Warn)
    {
      assert items[..i + 1][..i] == items[..i];
      if items[i].kind == Error {
        errors := errors + 1;
      } else if items[i].kind == Warn {
        warnings := warnings + 1;
      }
    }
    assert items[..|items|] == items;
    CountIs(items, Error);
    CountIs(items, Warn);
  }
}
