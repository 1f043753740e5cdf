/** The Streamlit front end: its own circular knowledge-graph chart, the
    gate in front of it on the results tab, the report links it picks out
    of calendar event descriptions, and the end time of a booking. */
module StreamlitApp {
  import opened Common
  import opened GraphModel
  import KnowledgeGraphVisualizer
  import Appointments
  import BackendApi

  // ---------------------------------------------------------------------
  // Chart data
  // ---------------------------------------------------------------------

  /** A point on the circle: the `index`-th of `count` evenly spaced angles
      (`np.linspace(0, 2π, count, endpoint=False)` at radius 5). The pair
      stands for the `(x, y)` coordinates computed from it. */
  datatype Spot = Spot(index: nat, count: nat)

  /** One legend entry: the title-cased key, its colour and its column. */
  datatype Swatch = Swatch(caption: string, colour: string, column: nat)

  /** What the chart shows: the edge trace (`None` separates segments), the
      node trace as three parallel lists, the legend and the two metrics. */
  datatype Chart = Chart(
    edgeAt: seq<Option<Spot>>,
    nodeAt: seq<Spot>,
    nodeText: seq<string>,
    nodeColour: seq<string>,
    legend: seq<Swatch>,
    nodeCount: nat,
    relationshipCount: nat)

  /** What the graph tab ends up showing. */
  datatype GraphView =
    | NoGraphData                 // the tab's own warning
    | VisualizationError(dump: Payload)  // any exception: an error and the raw value
    | NoNodes                     // "No nodes to visualize."
    | Drawn(chart: Chart)

  /** Positions keyed by the node's `id`, which may itself be absent. */
  type Positions = map<Option<string>, Spot>

  // ---------------------------------------------------------------------
  // Nodes
  // ---------------------------------------------------------------------

  /** `node.get("label", f"Node {i}")` */
  function NodeText(n: Node, i: nat): (r: string)
    ensures n.caption.Some? ==> r == n.caption.value
    ensures n.caption.None? ==> r == "Node " + NatToString(i)
  {
    n.caption.GetOr("Node " + NatToString(i))
  }

  /** `color_map.get(node.get("type", "unknown").lower(), color_map["unknown"])` */
  function NodeColour(n: Node): (r: string)
    ensures exists k :: 0 <= k < |Categories| && r == Hex(Categories[k])
    ensures forall k :: 0 <= k < |Categories| && AsciiLower(n.kind.GetOr("unknown")) == Key(Categories[k])
              ==> r == Hex(Categories[k])
    ensures (forall k :: 0 <= k < |Categories| ==> AsciiLower(n.kind.GetOr("unknown")) != Key(Categories[k]))
              ==> r == Hex(Unknown)
  {
    var c := CategoryOf(AsciiLower(n.kind.GetOr("unknown")));
    assert Categories[5] == Unknown;
    assert c == Categories[if c == Symptom then 0 else if c == Disease then 1 else if c == Treatment then 2
                           else if c == Outcome then 3 else if c == Error then 4 else 5];
    Hex(c)
  }

  /** `id_to_pos` after the first `n` nodes: each node writes its own id,
      so a later duplicate overwrites an earlier one. */
  function PositionsUpTo(nodes: seq<Node>, n: nat): Positions
    requires n <= |nodes|
    decreases n
  {
    if n == 0 then map[] else PositionsUpTo(nodes, n - 1)[nodes[n - 1].id := Spot(n - 1, |nodes|)]
  }

  /** The keys of `id_to_pos` are exactly the ids the nodes carry (an absent
      id included, as the key `None`). */
  lemma {:induction false} PositionKeys(nodes: seq<Node>, n: nat, k: Option<string>)
    requires n <= |nodes|
    ensures k in PositionsUpTo(nodes, n) <==> exists i :: 0 <= i < n && nodes[i].id == k
    decreases n
  {
    if n > 0 {
      PositionKeys(nodes, n - 1, k);
      if k != nodes[n - 1].id && k in PositionsUpTo(nodes, n) {
        var i :| 0 <= i < n - 1 && nodes[i].id == k;
        assert 0 <= i < n && nodes[i].id == k;
      }
    }
  }

  /** Duplicate ids: the position kept for an id is the one of its last
      occurrence, on the circle of all the nodes. */
  lemma {:induction false} LastOccurrenceWins(nodes: seq<Node>, n: nat, k: Option<string>)
    requires n <= |nodes|
    requires k in PositionsUpTo(nodes, n)
    ensures PositionsUpTo(nodes, n)[k].count == |nodes|
    ensures PositionsUpTo(nodes, n)[k].index < n
    ensures nodes[PositionsUpTo(nodes, n)[k].index].id == k
    ensures forall j :: PositionsUpTo(nodes, n)[k].index < j < n ==> nodes[j].id != k
    decreases n
  {
    if nodes[n - 1].id != k {
      LastOccurrenceWins(nodes, n - 1, k);
    }
  }

  /** The node loop: one entry per node in each of the three node lists,
      and the id-to-position map. */
  method PlaceNodes(nodes: seq<Node>) returns (at: seq<Spot>, text: seq<string>, colour: seq<string>, idToPos: Positions)
    ensures |at| == |text| == |colour| == |nodes|
    ensures forall i :: 0 <= i < |nodes| ==>
              at[i] == Spot(i, |nodes|) && text[i] == NodeText(nodes[i], i) && colour[i] == NodeColour(nodes[i])
    ensures idToPos == PositionsUpTo(nodes, |nodes|)
  {
    at, text, colour, idToPos := [], [], [], map[];
    for i := 0 to |nodes|
      invariant NodesPlaced(at, text, colour, nodes, i)
      invariant idToPos == PositionsUpTo(nodes, i)
    {
      var node := nodes[i];
      PlaceStep(at, text, colour, nodes, i);
      at := at + [Spot(i, |nodes|)];
      text := text + [NodeText(node, i)];
      colour := colour + [NodeColour(node)];
      idToPos := idToPos[node.id := Spot(i, |nodes|)];
    }
  }

  /** The three node lists hold the entries of the first `i` nodes. */
  ghost predicate NodesPlaced(at: seq<Spot>, text: seq<string>, colour: seq<string>, nodes: seq<Node>, i: nat) {
    |at| == |text| == |colour| == i && i <= |nodes|
    && forall j :: 0 <= j < i ==>
         at[j] == Spot(j, |nodes|) && text[j] == NodeText(nodes[j], j) && colour[j] == NodeColour(nodes[j])
  }

  lemma PlaceStep(at: seq<Spot>, text: seq<string>, colour: seq<string>, nodes: seq<Node>, i: nat)
    requires i < |nodes| && NodesPlaced(at, text, colour, nodes, i)
    ensures NodesPlaced(at + [Spot(i, |nodes|)], text + [NodeText(nodes[i], i)],
                        colour + [NodeColour(nodes[i])], nodes, i + 1)
  {
  }

  // ---------------------------------------------------------------------
  // Edges
  // ---------------------------------------------------------------------

  /** `src in id_to_pos and tgt in id_to_pos`, with `rel.get` giving `None`
      for an absent end. */
  predicate Joined(r: Relationship, pos: Positions) {
    r.source in pos && r.target in pos
  }

  /** `edge_x` / `edge_y` after the given relationships: three entries per
      joined relationship, the two ends and a separator. */
  function EdgeTrace(rels: seq<Relationship>, pos: Positions): (r: seq<Option<Spot>>)
    ensures |r| <= 3 * |rels| && |r| % 3 == 0
    ensures |r| == 3 * |rels| <==> forall i :: 0 <= i < |rels| ==> Joined(rels[i], pos)
    ensures forall k :: 0 <= k < |r| ==> (r[k].None? <==> k % 3 == 2)
    ensures forall k :: 0 <= k < |r| && r[k].Some? ==> r[k].value in pos.Values
    decreases |rels|
  {
    if rels == [] then []
    else
      var init := rels[..|rels| - 1];
      var rel := rels[|rels| - 1];
      var before := EdgeTrace(init, pos);
      if Joined(rel, pos) then
        assert forall i :: 0 <= i < |init| ==> init[i] == rels[i];
        var m := |before| / 3;
        assert |before| == 3 * m;
        assert (3 * m) % 3 == 0 && (3 * m + 1) % 3 == 1 && (3 * m + 2) % 3 == 2;
        assert pos[rel.source] in pos.Values && pos[rel.target] in pos.Values;
        before + [Some(pos[rel.source]), Some(pos[rel.target]), None]
      else
        assert !Joined(rels[|rels| - 1], pos);
        before
  }

  /** The two end positions of each relationship that is joined. */
  function JoinedEnds(rels: seq<Relationship>, pos: Positions): (res: seq<Option<(Spot, Spot)>>)
    ensures |res| == |rels|
    ensures forall k :: 0 <= k < |rels| ==>
              res[k] == (if Joined(rels[k], pos) then Some((pos[rels[k].source], pos[rels[k].target])) else None)
  {
    seq(|rels|, k requires 0 <= k < |rels| =>
      if Joined(rels[k], pos) then Some((pos[rels[k].source], pos[rels[k].target])) else None)
  }

  lemma JoinedEndsSnoc(rels: seq<Relationship>, pos: Positions)
    requires rels != []
    ensures JoinedEnds(rels, pos) == JoinedEnds(rels[..|rels| - 1], pos) + [JoinedEnds(rels, pos)[|rels| - 1]]
  {
    var n := |rels| - 1;
    var a, b := JoinedEnds(rels, pos), JoinedEnds(rels[..n], pos) + [JoinedEnds(rels, pos)[n]];
    forall k | 0 <= k < |a|
      ensures a[k] == b[k]
    {
      if k < n {
        assert rels[..n][k] == rels[k];
      }
    }
  }

  /** Whether each relationship is joined. */
  function JoinedFlags(rels: seq<Relationship>, pos: Positions): (f: seq<bool>)
    ensures |f| == |rels|
    ensures forall k :: 0 <= k < |rels| ==> f[k] == Joined(rels[k], pos)
  {
    seq(|rels|, k requires 0 <= k < |rels| => Joined(rels[k], pos))
  }

  /** The joined positions of a longer list: those of its front, and the
      last one when it is joined. */
  lemma JoinedFlagsStep(rels: seq<Relationship>, pos: Positions)
    requires rels != []
    ensures TruePositions(JoinedFlags(rels, pos)) ==
            TruePositions(JoinedFlags(rels[..|rels| - 1], pos)) + (if Joined(rels[|rels| - 1], pos) then [|rels| - 1] else [])
  {
    var flags := JoinedFlags(rels, pos);
    assert JoinedFlags(rels[..|rels| - 1], pos) == flags[..|flags| - 1];
    PositionsSnoc(flags);
  }

  /** `trace` holds, for the j-th position of `ks`, the two ends found there
      and a separator, at places 3j, 3j+1 and 3j+2. */
  ghost predicate TriplesAt(trace: seq<Option<Spot>>, ends: seq<Option<(Spot, Spot)>>, ks: seq<nat>) {
    && |trace| == 3 * |ks|
    && forall j :: 0 <= j < |ks| ==>
         && ks[j] < |ends| && ends[ks[j]].Some?
         && trace[3 * j] == Some(ends[ks[j]].value.0)
         && trace[3 * j + 1] == Some(ends[ks[j]].value.1)
         && trace[3 * j + 2] == None
  }

  lemma TriplesAtSnoc(trace: seq<Option<Spot>>, ends: seq<Option<(Spot, Spot)>>, ks: seq<nat>, e: Option<(Spot, Spot)>)
    requires TriplesAt(trace, ends, ks)
    ensures TriplesAt(trace + (if e.Some? then [Some(e.value.0), Some(e.value.1), None] else []),
                      ends + [e], ks + (if e.Some? then [|ends|] else []))
  {
    var trace', ends', ks' := trace + (if e.Some? then [Some(e.value.0), Some(e.value.1), None] else []),
                              ends + [e], ks + (if e.Some? then [|ends|] else []);
    forall j | 0 <= j < |ks'|
      ensures && ks'[j] < |ends'| && ends'[ks'[j]].Some?
              && trace'[3 * j] == Some(ends'[ks'[j]].value.0)
              && trace'[3 * j + 1] == Some(ends'[ks'[j]].value.1)
              && trace'[3 * j + 2] == None
    {
      if j < |ks| {
        assert ks'[j] == ks[j] && ends'[ks[j]] == ends[ks[j]];
        assert trace'[3 * j] == trace[3 * j] && trace'[3 * j + 1] == trace[3 * j + 1] && trace'[3 * j + 2] == trace[3 * j + 2];
      }
    }
  }

  /** One more relationship adds its triple when it is joined. */
  lemma EdgeTraceSnoc(rels: seq<Relationship>, pos: Positions)
    requires rels != []
    ensures var e := JoinedEnds(rels, pos)[|rels| - 1];
            EdgeTrace(rels, pos) == EdgeTrace(rels[..|rels| - 1], pos)
              + (if e.Some? then [Some(e.value.0), Some(e.value.1), None] else [])
  {
  }

  /** The edge trace holds exactly one triple per joined relationship, in
      relationship order: the j-th triple is the two ends of the j-th joined
      relationship and a separator, and every joined relationship has one. */
  lemma {:induction false} EdgeTraceSelect(rels: seq<Relationship>, pos: Positions)
    ensures TriplesAt(EdgeTrace(rels, pos), JoinedEnds(rels, pos), TruePositions(JoinedFlags(rels, pos)))
    decreases |rels|
  {
    if rels != [] {
      var n := |rels| - 1;
      var e := JoinedEnds(rels, pos)[n];
      var trace, ends, ks := EdgeTrace(rels[..n], pos), JoinedEnds(rels[..n], pos), TruePositions(JoinedFlags(rels[..n], pos));
      EdgeTraceSelect(rels[..n], pos);
      assert EdgeTrace(rels, pos) == trace + (if e.Some? then [Some(e.value.0), Some(e.value.1), None] else []) by {
        EdgeTraceSnoc(rels, pos);
      }
      assert TruePositions(JoinedFlags(rels, pos)) == ks + (if e.Some? then [n] else []) by {
        JoinedFlagsStep(rels, pos);
      }
      assert JoinedEnds(rels, pos) == ends + [e] by {
        JoinedEndsSnoc(rels, pos);
      }
      TriplesAtSnoc(trace, ends, ks, e);
    }
  }

  /** The relationship loop, extending the edge lists. */
  method TraceEdges(rels: seq<Relationship>, idToPos: Positions) returns (edgeAt: seq<Option<Spot>>)
    ensures edgeAt == EdgeTrace(rels, idToPos)
  {
    edgeAt := [];
    for i := 0 to |rels|
      invariant edgeAt == EdgeTrace(rels[..i], idToPos)
    {
      var rel := rels[i];
      assert rels[..i + 1][..i] == rels[..i];
      if rel.source in idToPos && rel.target in idToPos {
        edgeAt := edgeAt + [Some(idToPos[rel.source]), Some(idToPos[rel.target]), None];
      }
    }
    assert rels[..|rels|] == rels;
  }

  // ---------------------------------------------------------------------
  // Legend
  // ---------------------------------------------------------------------

  /** The six colour-table entries in table order, title-cased, in three
      columns filled round-robin. */
  function Legend(): (r: seq<Swatch>)
    ensures |r| == |Categories|
    ensures forall i :: 0 <= i < |r| ==>
              r[i].caption == PyTitle(Key(Categories[i])) && r[i].colour == Hex(Categories[i]) && r[i].column == i % 3
  {
    seq(|Categories|, i requires 0 <= i < |Categories| =>
      Swatch(PyTitle(Key(Categories[i])), Hex(Categories[i]), i % 3))
  }

  /** `title()` on a lower-case word capitalises its first letter only. */
  lemma TitleOfLowerWord(s: string)
    requires forall i :: 0 <= i < |s| ==> 'a' <= s[i] <= 'z'
    ensures PyTitle(s) == Capitalize(s)
  {
    var t := PyTitle(s);
    var c := Capitalize(s);
    forall i | 0 <= i < |s|
      ensures t[i] == c[i]
    {
      assert IsAsciiLetter(s[i]);
      if i > 0 {
        assert IsAsciiLetter(s[i - 1]);
        assert c[i] == s[i];
      }
    }
  }

  /** Every colour a node can take is in the legend. */
  lemma LegendShowsEveryColour(c: Category)
    ensures exists i :: 0 <= i < |Legend()| && Legend()[i].colour == Hex(c)
  {
    var i := if c == Symptom then 0 else if c == Disease then 1 else if c == Treatment then 2
             else if c == Outcome then 3 else if c == Error then 4 else 5;
    assert Categories[i] == c;
    assert Legend()[i].colour == Hex(c);
  }

  /** No colour appears twice in the legend. */
  lemma LegendColoursDistinct(i: nat, j: nat)
    requires i < j < |Legend()|
    ensures Legend()[i].colour != Legend()[j].colour
  {
    TableIsInjective(Categories[i], Categories[j]);
  }

  /** Each legend entry is its key with the first letter capitalised, in
      one of three columns. */
  lemma LegendCaptions(i: nat)
    requires i < |Legend()|
    ensures Legend()[i].caption == Capitalize(Key(Categories[i])) && Legend()[i].column < 3
  {
    TitleOfLowerWord(Key(Categories[i]));
  }

  // ---------------------------------------------------------------------
  // The chart
  // ---------------------------------------------------------------------

  /** The chart drawn for a decoded graph object. */
  function ChartOf(d: Doc): (v: GraphView)
    ensures v.NoNodes? || v.Drawn?
    ensures v.NoNodes? <==> NodesOr(d) == []
    ensures v.Drawn? ==> |v.chart.nodeAt| == |v.chart.nodeText| == |v.chart.nodeColour| == v.chart.nodeCount == |NodesOr(d)|
    ensures v.Drawn? ==> v.chart.relationshipCount == |RelationshipsOr(d)| && |v.chart.legend| == 6
    ensures v.Drawn? ==> |v.chart.edgeAt| <= 3 * |RelationshipsOr(d)|
  {
    var nodes := NodesOr(d);
    var rels := RelationshipsOr(d);
    if |nodes| == 0 then NoNodes
    else
      Drawn(Chart(
        EdgeTrace(rels, PositionsUpTo(nodes, |nodes|)),
        seq(|nodes|, i requires 0 <= i < |nodes| => Spot(i, |nodes|)),
        seq(|nodes|, i requires 0 <= i < |nodes| => NodeText(nodes[i], i)),
        seq(|nodes|, i requires 0 <= i < |nodes| => NodeColour(nodes[i])),
        Legend(),
        |nodes|,
        |rels|))
  }

  /** `create_knowledge_graph_visualization`: text is trimmed, un-fenced and
      decoded; anything else is used as it is. Every failure (a decoder
      error, a value without `.get`) ends in the error view. */
  function Visualization(p: Payload, parse: Parser): (v: GraphView)
    ensures !v.NoGraphData?
    ensures v.VisualizationError? ==> v.dump == p
    ensures p.Structured? ==> v == ChartOf(p.doc)
    ensures p.Missing? ==> v.VisualizationError?
  {
    match p
    case Missing => VisualizationError(p)
    case Structured(d) => ChartOf(d)
    case Text(t) => ChartOrError(p, parse(KnowledgeGraphVisualizer.CleanedJson(t)))
  }

  /** What a decoded payload turns into: a JSON object is charted, anything
      else (a decoder error, a value without `.get`) is the error view. */
  function ChartOrError(p: Payload, decoded: Result<Json, string>): (v: GraphView)
    ensures !v.NoGraphData?
    ensures v.VisualizationError? ==> v.dump == p
    ensures decoded.Ok? && decoded.value.Object? ==> v == ChartOf(decoded.value.doc)
    ensures !(decoded.Ok? && decoded.value.Object?) ==> v == VisualizationError(p)
  {
    if decoded.Ok? && decoded.value.Object? then ChartOf(decoded.value.doc) else VisualizationError(p)
  }

  method DrawChart(d: Doc) returns (v: GraphView)
    ensures v == ChartOf(d)
  {
    var nodes := NodesOr(d);
    var rels := RelationshipsOr(d);
    if |nodes| == 0 {
      return NoNodes;
    }
    var at, text, colour, idToPos := PlaceNodes(nodes);
    var edgeAt := TraceEdges(rels, idToPos);
    assert at == seq(|nodes|, i requires 0 <= i < |nodes| => Spot(i, |nodes|));
    assert text == seq(|nodes|, i requires 0 <= i < |nodes| => NodeText(nodes[i], i));
    assert colour == seq(|nodes|, i requires 0 <= i < |nodes| => NodeColour(nodes[i]));
    v := Drawn(Chart(edgeAt, at, text, colour, Legend(), |nodes|, |rels|));
  }

  method CreateKnowledgeGraphVisualization(p: Payload, parse: Parser) returns (v: GraphView)
    ensures v == Visualization(p, parse)
  {
    match p {
      case Missing =>
        v := VisualizationError(p);
      case Structured(d) =>
        v := DrawChart(d);
      case Text(t) =>
        var cleaned := PyStrip(t);
        if StartsWith(cleaned, JsonFence) {
          cleaned := cleaned[7..];
        }
        if EndsWith(cleaned, Fence) {
          cleaned := cleaned[..|cleaned| - 3];
        }
        assert cleaned == KnowledgeGraphVisualizer.CleanedJson(t);
        var decoded := parse(cleaned);
        if decoded.Ok? && decoded.value.Object? {
          v := DrawChart(decoded.value.doc);
        } else {
          v := VisualizationError(p);
        }
    }
  }

  /** The results tab: the chart is attempted only for a truthy value that
      is not the agent's "no graph" sentinel. */
  function GraphTab(kg: Payload, parse: Parser): (v: GraphView)
    ensures v.NoGraphData? <==> !KnowledgeGraphVisualizer.PyTruthy(kg) || kg == Text(KnowledgeGraphVisualizer.NoGraph)
  {
    if KnowledgeGraphVisualizer.PyTruthy(kg) && kg != Text(KnowledgeGraphVisualizer.NoGraph) then Visualization(kg, parse)
    else NoGraphData
  }

  /** Every drawn edge runs between two drawn nodes: each end of a segment
      is the position of some node whose id the relationship names. */
  lemma EdgesJoinDrawnNodes(d: Doc, k: nat)
    requires ChartOf(d).Drawn?
    requires k < |ChartOf(d).chart.edgeAt| && ChartOf(d).chart.edgeAt[k].Some?
    ensures exists i :: 0 <= i < |ChartOf(d).chart.nodeAt| && ChartOf(d).chart.nodeAt[i] == ChartOf(d).chart.edgeAt[k].value
  {
    var nodes := NodesOr(d);
    var pos := PositionsUpTo(nodes, |nodes|);
    var s := ChartOf(d).chart.edgeAt[k].value;
    assert s in pos.Values;
    var key :| key in pos && pos[key] == s;
    LastOccurrenceWins(nodes, |nodes|, key);
    assert ChartOf(d).chart.nodeAt[s.index] == s;
  }

  /** When every relationship names the ids of two listed nodes, every
      relationship is drawn. */
  lemma NamedEndsAreDrawn(d: Doc)
    requires NodesOr(d) != []
    requires forall r :: r in RelationshipsOr(d) ==>
               (exists i :: 0 <= i < |NodesOr(d)| && NodesOr(d)[i].id == r.source) &&
               (exists j :: 0 <= j < |NodesOr(d)| && NodesOr(d)[j].id == r.target)
    ensures |ChartOf(d).chart.edgeAt| == 3 * |RelationshipsOr(d)|
  {
    var nodes := NodesOr(d);
    var rels := RelationshipsOr(d);
    var pos := PositionsUpTo(nodes, |nodes|);
    forall i | 0 <= i < |rels|
      ensures Joined(rels[i], pos)
    {
      assert rels[i] in rels;
      PositionKeys(nodes, |nodes|, rels[i].source);
      PositionKeys(nodes, |nodes|, rels[i].target);
    }
  }

  /** An absent `source` and `target` are both looked up as `None`; once any
      node lacks an `id`, such a relationship is drawn as a segment to and
      from that node. */
  lemma AbsentEndsMeetIdlessNode(d: Doc, r: Relationship)
    requires r.source.None? && r.target.None?
    requires exists i :: 0 <= i < |NodesOr(d)| && NodesOr(d)[i].id.None?
    ensures Joined(r, PositionsUpTo(NodesOr(d), |NodesOr(d)|))
  {
    var nodes := NodesOr(d);
    var i :| 0 <= i < |nodes| && nodes[i].id.None?;
    PositionKeys(nodes, |nodes|, None);
  }

  /** Unlike the stand-alone visualiser, which calls `.strip()` on the value,
      this chart accepts an already decoded graph object. */
  lemma DecodedGraphIsDrawn(d: Doc, parse: Parser)
    requires NodesOr(d) != []
    ensures GraphTab(Structured(d), parse).Drawn?
    ensures GraphTab(Structured(d), parse).chart.nodeCount == |NodesOr(d)|
  {
    assert !IsEmptyDict(d);
  }

  /** A fenced text graph is drawn from exactly what the fence holds. */
  lemma FencedTextDrawsInner(x: string, parse: Parser)
    requires parse(x).Ok? && parse(x).value.Object?
    ensures Visualization(Text(JsonFence + x + Fence), parse) == ChartOf(parse(x).value.doc)
  {
    var t := JsonFence + x + Fence;
    assert t[0] == '`' && t[|t| - 1] == '`';
    StripKeeps(t, IsPyWhitespace);
    FenceRoundTrip(x);
    assert KnowledgeGraphVisualizer.CleanedJson(t) == x;
  }

  // ---------------------------------------------------------------------
  // Report links in event descriptions
  // ---------------------------------------------------------------------

  const DocsHost: string := "docs.google.com"

  /** `line.strip().split(" ")[-1]` */
  function LinkOf(line: string): string {
    var pieces := Split(PyStrip(line), ' ');
    pieces[|pieces| - 1]
  }

  /** The link holds no space and is what the trimmed line ends with. */
  lemma LinkOfShape(line: string)
    ensures ' ' !in LinkOf(line)
    ensures EndsWith(PyStrip(line), LinkOf(line))
  {
    LastPieceIsSuffix(PyStrip(line), ' ');
  }

  /** The links of the given lines, one per line that mentions the host. */
  function LinksIn(lines: seq<string>): (links: seq<string>)
    ensures |links| <= |lines|
    decreases |lines|
  {
    if lines == [] then []
    else
      var line := lines[|lines| - 1];
      LinksIn(lines[..|lines| - 1]) + (if Contains(line, DocsHost) then [LinkOf(line)] else [])
  }

  /** The links shown under an event: none unless the description mentions
      the host, otherwise one per description line that does. */
  function ReportLinks(desc: string): seq<string> {
    if Contains(desc, DocsHost) then LinksIn(Split(desc, '\n')) else []
  }

  method ExtractReportLinks(desc: string) returns (links: seq<string>)
    ensures links == ReportLinks(desc)
  {
    links := [];
    if Contains(desc, DocsHost) {
      var lines := Split(desc, '\n');
      for i := 0 to |lines|
        invariant links == LinksIn(lines[..i])
      {
        var line := lines[i];
        LinksInSnoc(lines, i);
        if Contains(line, DocsHost) {
          links := links + [LinkOf(line)];
        }
      }
      assert lines[..|lines|] == lines;
    }
  }

  lemma LinksInSnoc(lines: seq<string>, i: nat)
    requires i < |lines|
    ensures LinksIn(lines[..i + 1])
            == LinksIn(lines[..i]) + (if Contains(lines[i], DocsHost) then [LinkOf(lines[i])] else [])
  {
    assert lines[..i + 1][..i] == lines[..i];
  }

  /** Which description lines mention the host. */
  function HostFlags(lines: seq<string>): (f: seq<bool>)
    ensures |f| == |lines|
    ensures forall i :: 0 <= i < |lines| ==> f[i] == Contains(lines[i], DocsHost)
  {
    seq(|lines|, i requires 0 <= i < |lines| => Contains(lines[i], DocsHost))
  }

  /** The host lines of a longer list: those of its front, and the last
      line when it mentions the host. */
  lemma HostFlagsStep(lines: seq<string>)
    requires lines != []
    ensures TruePositions(HostFlags(lines)) ==
            TruePositions(HostFlags(lines[..|lines| - 1])) + (if Contains(lines[|lines| - 1], DocsHost) then [|lines| - 1] else [])
  {
    var flags := HostFlags(lines);
    assert HostFlags(lines[..|lines| - 1]) == flags[..|flags| - 1];
    PositionsSnoc(flags);
  }

  /** Link j is the link of line `ks[j]`. */
  ghost predicate LinksAt(links: seq<string>, lines: seq<string>, ks: seq<nat>) {
    |links| == |ks| && forall j :: 0 <= j < |ks| ==> ks[j] < |lines| && links[j] == LinkOf(lines[ks[j]])
  }

  /** One more line adds its link, at its own position, when it mentions
      the host. */
  lemma LinksAtSnoc(links: seq<string>, lines: seq<string>, ks: seq<nat>, line: string,
                    links': seq<string>, lines': seq<string>, ks': seq<nat>)
    requires LinksAt(links, lines, ks)
    requires links' == links + (if Contains(line, DocsHost) then [LinkOf(line)] else [])
    requires lines' == lines + [line]
    requires ks' == ks + (if Contains(line, DocsHost) then [|lines|] else [])
    ensures LinksAt(links', lines', ks')
  {
    forall j | 0 <= j < |ks'|
      ensures ks'[j] < |lines'| && links'[j] == LinkOf(lines'[ks'[j]])
    {
      if j < |ks| {
        assert links'[j] == links[j] && ks'[j] == ks[j] && lines'[ks[j]] == lines[ks[j]];
      }
    }
  }

  /** The links shown are exactly those of the lines mentioning the host,
      in line order: link j belongs to the j-th such line, and there are as
      many links as such lines. */
  lemma {:induction false} LinksInSelect(lines: seq<string>)
    ensures LinksAt(LinksIn(lines), lines, TruePositions(HostFlags(lines)))
    decreases |lines|
  {
    if lines != [] {
      var n := |lines| - 1;
      LinksInSelect(lines[..n]);
      LinksAtSnoc(LinksIn(lines[..n]), lines[..n], TruePositions(HostFlags(lines[..n])), lines[n],
                  LinksIn(lines), lines, TruePositions(HostFlags(lines))) by {
        HostFlagsStep(lines);
        assert lines[..n] + [lines[n]] == lines;
      }
    }
  }

  /** Every link shown comes from a description line mentioning the host,
      and every such line gives its link. */
  lemma LinksFollowDocLines(lines: seq<string>, k: nat)
    requires k < |LinksIn(lines)|
    ensures exists i :: 0 <= i < |lines| && Contains(lines[i], DocsHost) && LinksIn(lines)[k] == LinkOf(lines[i])
  {
    LinksInSelect(lines);
    var i := TruePositions(HostFlags(lines))[k];
    assert Contains(lines[i], DocsHost);
  }

  /** Every description line mentioning the host has its link shown. */
  lemma DocLinesGiveLinks(lines: seq<string>, i: nat)
    requires i < |lines| && Contains(lines[i], DocsHost)
    ensures LinkOf(lines[i]) in LinksIn(lines)
  {
    LinksInSelect(lines);
    var ks := TruePositions(HostFlags(lines));
    assert i in ks;
    var j :| 0 <= j < |ks| && ks[j] == i;
    assert LinksIn(lines)[j] == LinkOf(lines[i]);
  }

  /** Stripping leading characters stops at a kept character, so a tail
      that starts with one survives. */
  lemma StripLeftKeepsTail(s: string, w: string, drop: char -> bool)
    requires w != [] && !drop(w[0]) && EndsWith(s, w)
    ensures EndsWith(StripLeft(s, drop), w)
  {
    var l := StripLeft(s, drop);
    assert s[|s| - |w|] == w[0];
    assert |l| >= |w|;
    assert l[|l| - |w|..] == s[|s| - |w|..];
  }

  /** A suffix of `s` that is at least as long as another suffix `t` of `s`
      ends with `t`. */
  lemma SuffixOfSuffix(s: string, l: string, t: string)
    requires |l| <= |s| && l == s[|s| - |l|..]
    requires |t| <= |l| && EndsWith(s, t)
    ensures EndsWith(l, t)
  {
    assert l[|l| - |t|..] == s[|s| - |t|..];
  }

  /** Trimming a line that ends in a space and a URL free of white space
      leaves either the URL alone or something still ending in that space
      and URL. */
  lemma StripKeepsUrlTail(line: string, url: string)
    requires url != [] && forall i :: 0 <= i < |url| ==> !IsPyWhitespace(url[i])
    requires EndsWith(line, " " + url)
    ensures PyStrip(line) == url || EndsWith(PyStrip(line), [' '] + url)
  {
    assert EndsWith(line, url) by {
      assert line[|line| - |url|..] == (" " + url)[1..];
    }
    StripLeftKeepsTail(line, url, IsPyWhitespace);
    var l := StripLeft(line, IsPyWhitespace);
    assert !IsPyWhitespace(l[|l| - 1]) by {
      assert l[|l| - 1] == url[|url| - 1];
    }
    assert PyStrip(line) == l;
    if |l| != |url| {
      assert [' '] + url == " " + url;
      SuffixOfSuffix(line, l, " " + url);
    }
  }

  /** A line ending in a space and a URL free of white space yields that URL. */
  lemma LinkAfterLastSpace(line: string, url: string)
    requires url != [] && forall i :: 0 <= i < |url| ==> !IsPyWhitespace(url[i])
    requires EndsWith(line, " " + url)
    ensures LinkOf(line) == url
  {
    StripKeepsUrlTail(line, url);
    assert ' ' !in url by {
      assert IsPyWhitespace(' ');
    }
    LastPieceAfterSeparator(PyStrip(line), url, ' ');
  }

  // ---------------------------------------------------------------------
  // Booking
  // ---------------------------------------------------------------------

  /** The durations offered, in minutes; the form preselects the second. */
  const Durations: seq<nat> := [30, 45, 60, 90]

  /** What the booking form shows after a submission. */
  datatype FormReply =
    | CalendarMissing                    // the form is not shown
    | ClashWarning(count: nat)           // a warning, no event
    | FormBooked(booking: BackendApi.Booking, calendarLink: Option<string>)
    | NothingBooked                      // the event creator returned nothing

  /** The reply, and whether a report document was requested on the way. */
  datatype FormOutcome = FormOutcome(reply: FormReply, docAttempted: bool)

  /** The booking tab's submit handler: without a calendar the form is not
      offered; otherwise the end is the start plus the chosen duration, the
      report document is requested when the box, the Docs service and a
      stored report allow it (before the clash check, so also on a clash),
      a clash only warns, and otherwise the event is created with the
      document's link. */
  function SubmitBooking(name: string, start: int, duration: nat, notes: string, attach: bool,
                         lastReport: Option<string>, g: BackendApi.Google): (o: FormOutcome)
    requires duration in Durations
    ensures o.reply.CalendarMissing? <==> !g.calendar
    ensures o.docAttempted <==> g.calendar && AttemptsReportDoc(attach, g.docs, lastReport)
    ensures g.calendar ==>
              var end := Appointments.EndTime(start, duration);
              && (o.reply.ClashWarning? <==> g.clashes(start, end) > 0)
              && (o.reply.ClashWarning? ==> o.reply.count == g.clashes(start, end))
              && (o.reply.FormBooked? ==> g.clashes(start, end) == 0)
              && (g.clashes(start, end) == 0 ==>
                    (o.reply.FormBooked? <==> g.createEvent(BackendApi.Booking(name, notes, start, end,
                       if AttemptsReportDoc(attach, g.docs, lastReport) then g.reportDoc else None)).Some?))
    ensures o.reply.FormBooked? ==>
              && o.reply.booking.patientName == name && o.reply.booking.notes == notes
              && o.reply.booking.start == start && o.reply.booking.end - start in Durations
              && 30 <= o.reply.booking.end - start <= 90
              && o.reply.booking.docUrl == (if AttemptsReportDoc(attach, g.docs, lastReport) then g.reportDoc else None)
              && g.createEvent(o.reply.booking) == Some(o.reply.calendarLink)
    ensures o.reply.NothingBooked? ==> g.calendar && g.createEvent(BackendApi.Booking(name, notes, start, start + duration,
              if AttemptsReportDoc(attach, g.docs, lastReport) then g.reportDoc else None)).None?
  {
    if !g.calendar then FormOutcome(CalendarMissing, false)
    else
      var end := Appointments.EndTime(start, duration);
      var attempted := AttemptsReportDoc(attach, g.docs, lastReport);
      var docUrl := if attempted then g.reportDoc else None;
      var clashes := g.clashes(start, end);
      if clashes > 0 then FormOutcome(ClashWarning(clashes), attempted)
      else
        var b := BackendApi.Booking(name, notes, start, end, docUrl);
        match g.createEvent(b)
        case None => FormOutcome(NothingBooked, attempted)
        case Some(link) => FormOutcome(FormBooked(b, link), attempted)
  }

  /** The form and `POST /api/appointments` book alike: given the same
      patient, start, duration, notes and report decision, a connected
      calendar and a form whose fields the API would accept, both request
      the report document in the same cases, the form warns exactly when
      the API answers 409 with the same count, books exactly when the API
      books the same event, and books nothing exactly when the API answers
      that creation failed. */
  lemma FormAgreesWithApi(name: string, date: string, time: string, start: int, duration: nat, notes: string,
                          attach: bool, lastReport: Option<string>, report: map<string, string>,
                          parse: BackendApi.DateTimeParser, g: BackendApi.Google)
    requires duration in Durations
    requires name != [] && date != [] && time != []
    requires parse(date + "T" + time) == Ok(start)
    requires g.calendar
    requires AttemptsReportDoc(attach, g.docs, lastReport) == (attach && g.docs && report != map[])
    ensures var req := BackendApi.BookingRequest(Some(name), Some(date), Some(time), Some(duration), Some(notes), attach, Some(report));
            var api := BackendApi.BookAppointment(req, parse, g);
            var form := SubmitBooking(name, start, duration, notes, attach, lastReport, g);
            && form.docAttempted == api.docAttempted
            && (form.reply.ClashWarning? <==> api.reply.Conflict?)
            && (form.reply.ClashWarning? ==> form.reply.count == api.reply.count)
            && (form.reply.FormBooked? <==> api.reply.Booked?)
            && (form.reply.FormBooked? ==> form.reply.booking == api.reply.booking && form.reply.calendarLink == api.reply.calendarLink)
            && (form.reply.NothingBooked? <==> api.reply == BackendApi.ServerError(BackendApi.NoEvent))
  {
  }

  /** A report document is attempted only with the box ticked, the Docs
      service connected and a stored report that is not empty. */
  predicate AttemptsReportDoc(attach: bool, docsService: bool, lastReport: Option<string>) {
    attach && docsService && Truthy(lastReport)
  }
}
