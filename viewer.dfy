/** The React knowledge-graph panel: the effect that turns the `kgData`
    prop into the `graphData` snapshot, and the projections the panel draws
    from that snapshot (legend, circle slots, edges, counts, node and
    relationship lists). */
module KnowledgeGraphViewer {
  import opened Common
  import opened GraphModel

  // ---------------------------------------------------------------------
  // Ingestion
  // ---------------------------------------------------------------------

  /** JavaScript truthiness of the prop: a missing value and the empty
      string are false, every object is true. */
  predicate IsTruthy(p: Payload) {
    match p
    case Missing => false
    case Text(t) => t != []
    case Structured(_) => true
  }

  /** The text handed to `JSON.parse`: trimmed, then fence-stripped. */
  function Cleaned(s: string): string {
    StripFence(JsTrim(s))
  }

  /** What `JSON.parse` followed by the catch makes of a text. */
  function ParseOrNull(t: string, parse: Parser): Json {
    match parse(t)
    case Ok(v) => v
    case Err(_) => Null
  }

  /** One run of the effect body on a truthy prop: text is cleaned and
      parsed, a parse failure yields `null`; an object is taken as it is. */
  function Ingest(p: Payload, parse: Parser): (j: Json)
    requires IsTruthy(p)
    ensures p.Structured? ==> j == Object(p.doc)
    ensures p.Text? && parse(Cleaned(p.text)).Err? ==> j == Null
    ensures p.Text? && parse(Cleaned(p.text)).Ok? ==> j == parse(Cleaned(p.text)).value
  {
    match p
    case Structured(d) => Object(d)
    case Text(t) => ParseOrNull(Cleaned(t), parse)
  }

  /** The fence costs seven characters at the front and three at the
      back, and nothing inside is touched. */
  lemma FencedPayloadCleaned(x: string)
    ensures Cleaned(JsonFence + x + Fence) == x
  {
    FencedTextIsTrimmed(x);
    FenceRoundTrip(x);
  }

  /** A fenced payload is parsed exactly as its inner text would be. */
  lemma FencedPayloadParsesInner(x: string, parse: Parser)
    ensures Ingest(Text(JsonFence + x + Fence), parse) == ParseOrNull(x, parse)
  {
    FencedPayloadCleaned(x);
  }

  lemma FencedTextIsTrimmed(x: string)
    ensures JsTrim(JsonFence + x + Fence) == JsonFence + x + Fence
  {
    var t := JsonFence + x + Fence;
    assert t[0] == '`' && t[|t| - 1] == '`';
    StripKeeps(t, IsJsWhitespace);
  }

  /** Text that is already trimmed and carries neither fence reaches the
      parser character for character. */
  lemma PlainTextReachesParserUnchanged(s: string)
    requires Unpadded(s, IsJsWhitespace)
    requires !StartsWith(s, JsonFence) && !EndsWith(s, Fence)
    ensures Cleaned(s) == s
  {
    StripKeeps(s, IsJsWhitespace);
  }

  // ---------------------------------------------------------------------
  // The panel and its snapshot
  // ---------------------------------------------------------------------

  /** The component instance; `graphData` is its one piece of state. */
  class Panel {
    var graphData: Json

    constructor()
      ensures graphData == Null
    {
      graphData := Null;
    }

    /** The effect, run whenever `kgData` or `isOpen` changes: the snapshot
        is replaced only when the prop is truthy and the panel is open. */
    method OnPropsChange(kgData: Payload, isOpen: bool, parse: Parser)
      modifies this
      ensures IsTruthy(kgData) && isOpen ==> graphData == Ingest(kgData, parse)
      ensures !(IsTruthy(kgData) && isOpen) ==> graphData == old(graphData)
    {
      if IsTruthy(kgData) && isOpen {
        graphData := Ingest(kgData, parse);
      }
    }

    /** The render: nothing while closed, the view of the snapshot while
        open. */
    function Render(isOpen: bool): (v: Option<Body>)
      reads this
      ensures v.None? <==> !isOpen
      ensures v.Some? ==> (v.value.EmptyState? <==> |NodesOf(graphData)| == 0)
    {
      if isOpen then Some(View(graphData)) else None
    }
  }

  // ---------------------------------------------------------------------
  // Projections of the snapshot
  // ---------------------------------------------------------------------

  /** `graphData?.nodes || []` */
  function NodesOf(j: Json): seq<Node> {
    if j.Object? then NodesOr(j.doc) else []
  }

  /** `graphData?.relationships || []` */
  function RelationshipsOf(j: Json): seq<Relationship> {
    if j.Object? then RelationshipsOr(j.doc) else []
  }

  /** `(type || "unknown").toLowerCase()` */
  function NormalizedType(kind: Option<string>): string {
    AsciiLower(if Truthy(kind) then kind.value else "unknown")
  }

  /** The colour lookup, total over the six-entry map with the `unknown`
      colour as fallback. */
  function ColorOfType(kind: Option<string>): (hex: string)
    ensures forall c: Category :: Key(c) == NormalizedType(kind) ==> hex == Hex(c)
    ensures (forall c: Category :: Key(c) != NormalizedType(kind)) ==> hex == Hex(Unknown)
  {
    Hex(CategoryOf(NormalizedType(kind)))
  }

  /** Types that differ only in the case of their letters get one colour. */
  lemma {:induction false} ColourIgnoresCase(a: string, b: string)
    requires AsciiLower(a) == AsciiLower(b)
    ensures NormalizedType(Some(a)) == NormalizedType(Some(b))
    ensures ColorOfType(Some(a)) == ColorOfType(Some(b))
  {
    assert |a| == |AsciiLower(a)| == |b|;
  }

  /** A circle's place on the ring: the angle depends only on the index and
      the number of nodes. */
  datatype Slot = Slot(index: nat, count: nat)

  /** `{...node, x, y}`: the node with every original field and a slot. */
  datatype Placed = Placed(node: Node, slot: Slot)

  function Layout(nodes: seq<Node>): (r: seq<Placed>)
    ensures |r| == |nodes|
    ensures forall i :: 0 <= i < |r| ==> r[i].node == nodes[i] && r[i].slot == Slot(i, |nodes|)
  {
    seq(|nodes|, i requires 0 <= i < |nodes| => Placed(nodes[i], Slot(i, |nodes|)))
  }

  /** `nodes.find(n => n.id === key)`, as an index: the first node whose
      `id` equals `key` (an absent `id` equals an absent key). */
  function FindById(nodes: seq<Node>, key: Option<string>): (r: Option<nat>)
    ensures r.Some? ==> r.value < |nodes| && nodes[r.value].id == key
    ensures r.Some? ==> forall k :: 0 <= k < r.value ==> nodes[k].id != key
    ensures r.None? ==> forall k :: 0 <= k < |nodes| ==> nodes[k].id != key
    decreases |nodes|
  {
    if nodes == [] then None
    else if nodes[0].id == key then Some(0)
    else
      match FindById(nodes[1..], key)
      case None => None
      case Some(i) => Some(i + 1)
  }

  /** A drawn edge, between the slots of its two endpoint circles. */
  datatype Line = Line(from: Slot, to: Slot)

  /** An edge is drawn iff both ends name a node; each end is the first
      node with that id. */
  function ResolveEdge(rel: Relationship, nodes: seq<Node>): (r: Option<Line>)
    ensures r.Some? <==> (exists i :: 0 <= i < |nodes| && nodes[i].id == rel.source)
                         && (exists i :: 0 <= i < |nodes| && nodes[i].id == rel.target)
    ensures r.Some? ==> r.value.from.count == |nodes| && r.value.from.index < |nodes|
                        && nodes[r.value.from.index].id == rel.source
                        && forall k :: 0 <= k < r.value.from.index ==> nodes[k].id != rel.source
    ensures r.Some? ==> r.value.to.count == |nodes| && r.value.to.index < |nodes|
                        && nodes[r.value.to.index].id == rel.target
                        && forall k :: 0 <= k < r.value.to.index ==> nodes[k].id != rel.target
  {
    var s := FindById(nodes, rel.source);
    var t := FindById(nodes, rel.target);
    if s.Some? && t.Some? then Some(Line(Slot(s.value, |nodes|), Slot(t.value, |nodes|))) else None
  }

  /** The edges drawn, in relationship order; dangling ones are dropped. */
  function Edges(rels: seq<Relationship>, nodes: seq<Node>): (r: seq<Line>)
    ensures |r| <= |rels|
    ensures |r| == |rels| <==> forall k :: 0 <= k < |rels| ==> ResolveEdge(rels[k], nodes).Some?
    decreases |rels|
  {
    if rels == [] then []
    else
      var n := |rels| - 1;
      var front := Edges(rels[..n], nodes);
      assert forall k :: 0 <= k < n ==> rels[..n][k] == rels[k];
      match ResolveEdge(rels[n], nodes)
      case Some(l) => front + [l]
      case None => front
  }

  /** Whether each relationship resolves. */
  function ResolvingFlags(rels: seq<Relationship>, nodes: seq<Node>): (f: seq<bool>)
    ensures |f| == |rels|
    ensures forall k :: 0 <= k < |rels| ==> f[k] == ResolveEdge(rels[k], nodes).Some?
  {
    seq(|rels|, k requires 0 <= k < |rels| => ResolveEdge(rels[k], nodes).Some?)
  }

  /** What each relationship resolves to. */
  function Resolutions(rels: seq<Relationship>, nodes: seq<Node>): (res: seq<Option<Line>>)
    ensures |res| == |rels|
    ensures forall k :: 0 <= k < |rels| ==> res[k] == ResolveEdge(rels[k], nodes)
  {
    seq(|rels|, k requires 0 <= k < |rels| => ResolveEdge(rels[k], nodes))
  }

  lemma ResolutionsSnoc(rels: seq<Relationship>, nodes: seq<Node>)
    requires rels != []
    ensures Resolutions(rels, nodes) == Resolutions(rels[..|rels| - 1], nodes) + [ResolveEdge(rels[|rels| - 1], nodes)]
  {
    var n := |rels| - 1;
    var a, b := Resolutions(rels, nodes), Resolutions(rels[..n], nodes) + [ResolveEdge(rels[n], nodes)];
    forall k | 0 <= k < |a|
      ensures a[k] == b[k]
    {
      if k < n {
        assert rels[..n][k] == rels[k];
      }
    }
  }

  /** `lines` are the resolved lines at positions `ks` of `res`, in order. */
  ghost predicate LinesAt(lines: seq<Line>, res: seq<Option<Line>>, ks: seq<nat>) {
    |lines| == |ks| && forall j :: 0 <= j < |ks| ==> ks[j] < |res| && res[ks[j]] == Some(lines[j])
  }

  /** One more resolution adds its line, at its own position, when there is one. */
  lemma LinesAtSnoc(lines: seq<Line>, res: seq<Option<Line>>, ks: seq<nat>, r: Option<Line>,
                    lines': seq<Line>, res': seq<Option<Line>>, ks': seq<nat>)
    requires LinesAt(lines, res, ks)
    requires lines' == lines + (if r.Some? then [r.value] else [])
    requires res' == res + [r]
    requires ks' == ks + (if r.Some? then [|res|] else [])
    ensures LinesAt(lines', res', ks')
  {
    forall j | 0 <= j < |ks'|
      ensures ks'[j] < |res'| && res'[ks'[j]] == Some(lines'[j])
    {
      if j < |ks| {
        assert lines'[j] == lines[j] && ks'[j] == ks[j] && res'[ks[j]] == res[ks[j]];
      }
    }
  }

  /** The resolving positions of a longer list: those of its front, and the
      last one when it resolves. */
  lemma ResolvingFlagsStep(rels: seq<Relationship>, nodes: seq<Node>)
    requires rels != []
    ensures TruePositions(ResolvingFlags(rels, nodes)) ==
            TruePositions(ResolvingFlags(rels[..|rels| - 1], nodes))
            + (if ResolveEdge(rels[|rels| - 1], nodes).Some? then [|rels| - 1] else [])
  {
    var flags := ResolvingFlags(rels, nodes);
    assert ResolvingFlags(rels[..|rels| - 1], nodes) == flags[..|flags| - 1];
    PositionsSnoc(flags);
  }

  /** One more relationship adds its line when it resolves. */
  lemma EdgesSnoc(rels: seq<Relationship>, nodes: seq<Node>)
    requires rels != []
    ensures Edges(rels, nodes) == Edges(rels[..|rels| - 1], nodes)
              + (if ResolveEdge(rels[|rels| - 1], nodes).Some? then [ResolveEdge(rels[|rels| - 1], nodes).value] else [])
  {
  }

  /** The lines drawn are exactly those of the resolving relationships, in
      relationship order: the j-th line belongs to the j-th resolving
      relationship, and every resolving relationship has its line. */
  lemma {:induction false} EdgesSelect(rels: seq<Relationship>, nodes: seq<Node>)
    ensures LinesAt(Edges(rels, nodes), Resolutions(rels, nodes), TruePositions(ResolvingFlags(rels, nodes)))
    decreases |rels|
  {
    if rels != [] {
      var n := |rels| - 1;
      var r := ResolveEdge(rels[n], nodes);
      var lines, res, ks := Edges(rels[..n], nodes), Resolutions(rels[..n], nodes), TruePositions(ResolvingFlags(rels[..n], nodes));
      EdgesSelect(rels[..n], nodes);
      LinesAtSnoc(lines, res, ks, r, Edges(rels, nodes), Resolutions(rels, nodes), TruePositions(ResolvingFlags(rels, nodes))) by {
        EdgesSnoc(rels, nodes);
        ResolvingFlagsStep(rels, nodes);
        ResolutionsSnoc(rels, nodes);
      }
    }
  }

  /** `node.label || node.id` */
  function DisplayLabel(n: Node): Option<string> {
    Or(n.caption, n.id)
  }

  /** The text under a circle as written: `label.length` throws when both
      `label` and `id` are absent, which `None` stands for. */
  function DiagramLabelAsWritten(n: Node): (r: Option<string>)
    ensures r.None? <==> !Truthy(n.caption) && n.id.None?
  {
    match DisplayLabel(n)
    case None => None
    case Some(s) => Some(Ellipsize(s, 10))
  }

  /** A node with neither `label` nor `id` makes the whole panel throw. */
  lemma UnlabelledNodeThrows()
    ensures DiagramLabelAsWritten(Node(None, None, Some("symptom"), {})).None?
  {
  }

  /** The text under a circle, with an absent name shown as empty: at most
      thirteen characters, the name itself when it has at most ten, and
      the same text as the code produces wherever that does not throw. */
  function DiagramLabel(n: Node): (r: string)
    ensures |r| <= 13
    ensures |DisplayLabel(n).GetOr("")| <= 10 ==> r == DisplayLabel(n).GetOr("")
    ensures |DisplayLabel(n).GetOr("")| > 10 ==> r == DisplayLabel(n).GetOr("")[..10] + "..."
    ensures DiagramLabelAsWritten(n).Some? ==> DiagramLabelAsWritten(n).value == r
  {
    Ellipsize(DisplayLabel(n).GetOr(""), 10)
  }

  /** A `fill` value: a colour string, or what a lookup on the plain
      object map finds on `Object.prototype`. */
  datatype Fill = Colour(hex: string) | PrototypeMember(name: string)

  /** `colorMap[nodeType] || colorMap.unknown` on a plain JavaScript
      object: the lower-cased types "constructor" and "__proto__" are
      inherited members and are truthy, so the fallback is not taken. */
  function FillAsWritten(kind: Option<string>): (f: Fill)
    ensures f.Colour? ==> f.hex == ColorOfType(kind)
    ensures f.PrototypeMember? <==> NormalizedType(kind) in {"constructor", "__proto__"}
  {
    var t := NormalizedType(kind);
    if t == "constructor" || t == "__proto__" then PrototypeMember(t)
    else Colour(Hex(CategoryOf(t)))
  }

  /** The type "Constructor" is drawn with `Object` as its fill instead of
      the fallback grey. */
  lemma ConstructorTypeMissesFallback()
    ensures FillAsWritten(Some("Constructor")) == PrototypeMember("constructor")
    ensures ColorOfType(Some("Constructor")) == Hex(Unknown)
  {
    assert NormalizedType(Some("Constructor")) == "constructor";
  }

  /** One drawn circle. */
  datatype Circle = Circle(slot: Slot, fill: string, text: string)

  /** One entry of the node list: `label || id` (absent shows nothing), the
      normalised type and the colour of the border. */
  datatype NodeItem = NodeItem(name: Option<string>, typeText: string, colour: string)

  /** One entry of the relationship list. */
  datatype RelItem = RelItem(source: Option<string>, target: Option<string>, kind: Option<string>)

  datatype LegendEntry = LegendEntry(title: string, colour: string)

  /** What an open panel shows. */
  datatype Body =
    | EmptyState
    | Graph(legend: seq<LegendEntry>, edges: seq<Line>, circles: seq<Circle>,
            nodeCount: nat, relCount: nat, nodeItems: seq<NodeItem>,
            relItems: Option<seq<RelItem>>)

  function Legend(): (r: seq<LegendEntry>)
    ensures |r| == |Categories|
    ensures forall i :: 0 <= i < |r| ==> r[i].colour == Hex(Categories[i])
    ensures forall i :: 0 <= i < |r| ==> |r[i].title| == |Key(Categories[i])| && r[i].title[1..] == Key(Categories[i])[1..]
    ensures forall i :: 0 <= i < |r| ==> r[i].title != [] && r[i].title[0] == UpperChar(Key(Categories[i])[0]) && 'A' <= r[i].title[0] <= 'Z'
  {
    seq(|Categories|, i requires 0 <= i < |Categories| => LegendEntry(Capitalize(Key(Categories[i])), Hex(Categories[i])))
  }

  /** `sourceNode?.label || rel.source`: the first matching node's label
      when it is truthy, the raw endpoint otherwise. */
  function EndpointText(nodes: seq<Node>, key: Option<string>): (r: Option<string>)
    ensures FindById(nodes, key).None? ==> r == key
    ensures (FindById(nodes, key).Some? && Truthy(nodes[FindById(nodes, key).value].caption))
            ==> r == nodes[FindById(nodes, key).value].caption
    ensures (FindById(nodes, key).Some? && !Truthy(nodes[FindById(nodes, key).value].caption)) ==> r == key
    ensures r == key || Truthy(r)
  {
    match FindById(nodes, key)
    case None => key
    case Some(i) => Or(nodes[i].caption, key)
  }

  function RelItemOf(rel: Relationship, nodes: seq<Node>): (r: RelItem)
    ensures r.kind.Some? <==> Truthy(rel.kind)
    ensures r.kind.Some? ==> r.kind == rel.kind
  {
    RelItem(EndpointText(nodes, rel.source), EndpointText(nodes, rel.target),
            if Truthy(rel.kind) then rel.kind else None)
  }

  /** The body of an open panel for a snapshot. */
  function View(j: Json): (b: Body)
    ensures b.EmptyState? <==> |NodesOf(j)| == 0
    ensures b.Graph? ==> b.nodeCount == |NodesOf(j)| && b.relCount == |RelationshipsOf(j)|
    ensures b.Graph? ==> |b.edges| <= b.relCount
    ensures b.Graph? ==> |b.circles| == |b.nodeItems| == b.nodeCount
    ensures b.Graph? ==> forall i :: 0 <= i < |b.circles| ==> b.circles[i].slot == Slot(i, b.nodeCount)
    ensures b.Graph? ==> (b.relItems.Some? <==> b.relCount > 0)
    ensures b.Graph? && b.relItems.Some? ==> |b.relItems.value| == b.relCount
    ensures b.Graph? ==> |b.legend| == 6
  {
    var nodes := NodesOf(j);
    var rels := RelationshipsOf(j);
    if |nodes| == 0 then EmptyState
    else
      var placed := Layout(nodes);
      Graph(
        Legend(),
        Edges(rels, nodes),
        seq(|placed|, i requires 0 <= i < |placed| =>
          Circle(placed[i].slot, ColorOfType(placed[i].node.kind), DiagramLabel(placed[i].node))),
        |nodes|,
        |rels|,
        seq(|nodes|, i requires 0 <= i < |nodes| =>
          NodeItem(DisplayLabel(nodes[i]), NormalizedType(nodes[i].kind), ColorOfType(nodes[i].kind))),
        if |rels| > 0 then Some(seq(|rels|, i requires 0 <= i < |rels| => RelItemOf(rels[i], nodes))) else None)
  }

  /** A snapshot that is `null`, or an object without usable `nodes`, shows
      the empty state rather than failing. */
  lemma MissingNodesShowEmptyState(d: Doc)
    requires d.nodes.None? || d.nodes == Some([])
    ensures View(Null).EmptyState?
    ensures View(Object(d)).EmptyState?
  {
  }
}
