/** The Streamlit knowledge-graph visualiser: decoding with a fallback
    graph, the Plotly figure's edge and node traces, the reasoning-path and
    relationship panels, the per-type summary, and the gate in front of
    them all. Coordinates stay layout slots (see VisualizerLayout). */
module KnowledgeGraphVisualizer {
  import opened Common
  import opened GraphModel
  import opened VisualizerLayout

  // ---------------------------------------------------------------------
  // Decoding
  // ---------------------------------------------------------------------

  /** The graph `_create_fallback_graph` returns, whatever text it is
      given: one disease node, no relationships, no reasoning paths. */
  function FallbackGraph(): Doc {
    Doc(Some([Node(Some("analysis"), Some("Medical Analysis"), Some("disease"), {"properties"})]),
        Some([]), Some([]), None, {})
  }

  /** The text handed to `json.loads`: stripped, then fence-stripped. */
  function CleanedJson(s: string): string {
    StripFence(PyStrip(s))
  }

  /** A decoded value, with the decoder's complaint when decoding failed
      and the fallback graph stands in. */
  datatype Decoded = Decoded(value: Json, complaint: Option<string>)

  function Decode(t: string, parse: Parser): (r: Decoded)
    ensures r.complaint.None? <==> parse(t).Ok?
    ensures parse(t).Ok? ==> r.value == parse(t).value
    ensures parse(t).Err? ==> r.value == Object(FallbackGraph()) && r.complaint == Some(parse(t).error)
  {
    match parse(t)
    case Ok(j) => Decoded(j, None)
    case Err(e) => Decoded(Object(FallbackGraph()), Some(e))
  }

  /** The `AttributeError` raised by `.strip()` on a value that is not a
      string. */
  const NoneHasNoStrip: string := "'NoneType' object has no attribute 'strip'"
  const DictHasNoStrip: string := "'dict' object has no attribute 'strip'"

  /** `parse_knowledge_graph`: only a decode error is caught; anything but
      text raises before decoding. */
  function ParseKnowledgeGraph(p: Payload, parse: Parser): (r: Result<Decoded, string>)
    ensures r.Ok? <==> p.Text?
    ensures p.Text? ==> r.value == Decode(CleanedJson(p.text), parse)
    ensures p.Missing? ==> r == Err(NoneHasNoStrip)
    ensures p.Structured? ==> r == Err(DictHasNoStrip)
  {
    match p
    case Missing => Err(NoneHasNoStrip)
    case Structured(_) => Err(DictHasNoStrip)
    case Text(t) => Ok(Decode(CleanedJson(t), parse))
  }

  /** Text never makes the parse step raise: a decode error becomes the
      fallback graph, an object at that. */
  lemma TextAlwaysYieldsAValue(t: string, parse: Parser)
    ensures ParseKnowledgeGraph(Text(t), parse).Ok?
    ensures parse(CleanedJson(t)).Err? ==> ParseKnowledgeGraph(Text(t), parse).value.value.Object?
  {
  }

  /** A fenced JSON block decodes exactly as its inner text does. */
  lemma FencedTextDecodesInner(x: string, parse: Parser)
    ensures ParseKnowledgeGraph(Text(JsonFence + x + Fence), parse) == Ok(Decode(x, parse))
  {
    var t := JsonFence + x + Fence;
    assert t[0] == '`' && t[|t| - 1] == '`';
    StripKeeps(t, IsPyWhitespace);
    FenceRoundTrip(x);
  }

  // ---------------------------------------------------------------------
  // Edges
  // ---------------------------------------------------------------------

  /** `rel.get('source', '')` and `rel.get('target', '')` */
  function SourceKey(r: Relationship): string {
    r.source.GetOr("")
  }

  function TargetKey(r: Relationship): string {
    r.target.GetOr("")
  }

  /** An edge is drawn when both of its ends have a position. */
  predicate Drawn(r: Relationship, pos: map<string, Slot>) {
    SourceKey(r) in pos && TargetKey(r) in pos
  }

  /** The drawn relationships, in input order. */
  function KeptEdges(rels: seq<Relationship>, pos: map<string, Slot>): (r: seq<Relationship>)
    ensures |r| <= |rels|
    ensures forall k :: 0 <= k < |r| ==> Drawn(r[k], pos)
    ensures |r| == |rels| <==> forall k :: 0 <= k < |rels| ==> Drawn(rels[k], pos)
    decreases |rels|
  {
    if rels == [] then []
    else
      var n := |rels| - 1;
      var front := KeptEdges(rels[..n], pos);
      assert forall k :: 0 <= k < n ==> rels[..n][k] == rels[k];
      front + (if Drawn(rels[n], pos) then [rels[n]] else [])
  }

  /** Whether each relationship is drawn. */
  function DrawnFlags(rels: seq<Relationship>, pos: map<string, Slot>): (f: seq<bool>)
    ensures |f| == |rels|
    ensures forall k :: 0 <= k < |rels| ==> f[k] == Drawn(rels[k], pos)
  {
    seq(|rels|, k requires 0 <= k < |rels| => Drawn(rels[k], pos))
  }

  /** The kept edges are exactly the drawn relationships, in input order:
      the j-th kept edge is the relationship at the j-th drawn position, and
      every drawn position is among them. */
  lemma {:induction false} KeptEdgesSelect(rels: seq<Relationship>, pos: map<string, Slot>)
    ensures Selects(KeptEdges(rels, pos), rels, TruePositions(DrawnFlags(rels, pos)))
    decreases |rels|
  {
    if rels != [] {
      var n := |rels| - 1;
      var kept, ks, drawn := KeptEdges(rels[..n], pos), TruePositions(DrawnFlags(rels[..n], pos)), Drawn(rels[n], pos);
      KeptEdgesSelect(rels[..n], pos);
      assert KeptEdges(rels, pos) == kept + (if drawn then [rels[n]] else []) by {
        KeptSnoc(rels, pos, n);
      }
      assert TruePositions(DrawnFlags(rels, pos)) == ks + (if drawn then [n] else []) by {
        DrawnFlagsStep(rels, pos);
      }
      assert rels[..n] + [rels[n]] == rels;
      SelectSnoc(kept, rels[..n], ks, rels[n], drawn);
    }
  }

  /** A relationship is kept exactly when it occurs in the input and is drawn. */
  lemma KeptEdgesMembers(rels: seq<Relationship>, pos: map<string, Slot>, x: Relationship)
    ensures x in KeptEdges(rels, pos) <==> x in rels && Drawn(x, pos)
  {
    KeptEdgesSelect(rels, pos);
    var ks := TruePositions(DrawnFlags(rels, pos));
    var kept := KeptEdges(rels, pos);
    if x in kept {
      var j :| 0 <= j < |kept| && kept[j] == x;
      assert rels[ks[j]] == x;
    }
    if x in rels && Drawn(x, pos) {
      var k :| 0 <= k < |rels| && rels[k] == x;
      assert DrawnFlags(rels, pos)[k];
      var j :| 0 <= j < |ks| && ks[j] == k;
      assert kept[j] == x;
    }
  }

  /** The drawn positions of a longer list: those of its front, and the last
      one when it is drawn. */
  lemma DrawnFlagsStep(rels: seq<Relationship>, pos: map<string, Slot>)
    requires rels != []
    ensures TruePositions(DrawnFlags(rels, pos)) ==
            TruePositions(DrawnFlags(rels[..|rels| - 1], pos)) + (if Drawn(rels[|rels| - 1], pos) then [|rels| - 1] else [])
  {
    var flags := DrawnFlags(rels, pos);
    assert DrawnFlags(rels[..|rels| - 1], pos) == flags[..|flags| - 1];
    PositionsSnoc(flags);
  }

  /** The hover record of one edge, with its defaults. */
  datatype EdgeInfo = EdgeInfo(source: string, target: string, kind: string, confidence: string, reasoning: string)

  function EdgeInfoOf(r: Relationship): EdgeInfo {
    EdgeInfo(SourceKey(r), TargetKey(r), r.kind.GetOr("unknown"), r.confidence.GetOr("N/A"),
             r.reasoning.GetOr("No reasoning provided"))
  }

  /** The hover records of the drawn edges. */
  function EdgeInfos(kept: seq<Relationship>): (r: seq<EdgeInfo>)
    ensures |r| == |kept|
  {
    seq(|kept|, k requires 0 <= k < |kept| => EdgeInfoOf(kept[k]))
  }

  lemma EdgeInfosSnoc(kept: seq<Relationship>, r: Relationship)
    ensures EdgeInfos(kept + [r]) == EdgeInfos(kept) + [EdgeInfoOf(r)]
  {
  }

  /** The edge trace's points: both ends of each drawn edge, then a break. */
  function EdgePoints(kept: seq<Relationship>, pos: map<string, Slot>): (r: seq<Option<Slot>>)
    requires forall k :: 0 <= k < |kept| ==> Drawn(kept[k], pos)
    ensures |r| == 3 * |kept|
    decreases |kept|
  {
    if kept == [] then []
    else
      var n := |kept| - 1;
      assert Drawn(kept[n], pos);
      EdgePoints(kept[..n], pos) + [Some(pos[SourceKey(kept[n])]), Some(pos[TargetKey(kept[n])]), None]
  }

  /** Each drawn edge contributes its two end positions and a break, at
      three consecutive places. */
  lemma {:induction false} EdgePointsAt(kept: seq<Relationship>, pos: map<string, Slot>, k: nat)
    requires forall j :: 0 <= j < |kept| ==> Drawn(kept[j], pos)
    requires k < |kept|
    ensures EdgePoints(kept, pos)[3 * k] == Some(pos[SourceKey(kept[k])])
    ensures EdgePoints(kept, pos)[3 * k + 1] == Some(pos[TargetKey(kept[k])])
    ensures EdgePoints(kept, pos)[3 * k + 2] == None
    decreases |kept|
  {
    var n := |kept| - 1;
    if k < n {
      EdgePointsAt(kept[..n], pos, k);
    }
  }

  lemma KeptSnoc(rels: seq<Relationship>, pos: map<string, Slot>, i: nat)
    requires i < |rels|
    ensures KeptEdges(rels[..i + 1], pos) == KeptEdges(rels[..i], pos) + (if Drawn(rels[i], pos) then [rels[i]] else [])
  {
    assert rels[..i + 1][..i] == rels[..i];
  }

  lemma EdgePointsSnoc(kept: seq<Relationship>, pos: map<string, Slot>, r: Relationship)
    requires forall k :: 0 <= k < |kept| ==> Drawn(kept[k], pos)
    requires Drawn(r, pos)
    ensures forall k :: 0 <= k < |kept + [r]| ==> Drawn((kept + [r])[k], pos)
    ensures EdgePoints(kept + [r], pos) == EdgePoints(kept, pos) + [Some(pos[SourceKey(r)]), Some(pos[TargetKey(r)]), None]
  {
    assert (kept + [r])[..|kept|] == kept;
  }

  /** Lines 110-132. */
  method CollectEdges(rels: seq<Relationship>, pos: map<string, Slot>)
    returns (points: seq<Option<Slot>>, info: seq<EdgeInfo>)
    ensures points == EdgePoints(KeptEdges(rels, pos), pos)
    ensures info == EdgeInfos(KeptEdges(rels, pos))
  {
    points := [];
    info := [];
    for i := 0 to |rels|
      invariant points == EdgePoints(KeptEdges(rels[..i], pos), pos)
      invariant info == EdgeInfos(KeptEdges(rels[..i], pos))
    {
      var rel := rels[i];
      CollectStep(rels, pos, i);
      var sourceId := SourceKey(rel);
      var targetId := TargetKey(rel);
      if sourceId in pos && targetId in pos {
        points := points + [Some(pos[sourceId]), Some(pos[targetId]), None];
        info := info + [EdgeInfoOf(rel)];
      }
    }
    assert rels[..|rels|] == rels;
  }

  /** One turn of the edge loop: a drawn relationship adds its two ends, a
      break and its hover record; any other adds nothing. */
  lemma CollectStep(rels: seq<Relationship>, pos: map<string, Slot>, i: nat)
    requires i < |rels|
    ensures Drawn(rels[i], pos) ==>
              EdgePoints(KeptEdges(rels[..i + 1], pos), pos)
              == EdgePoints(KeptEdges(rels[..i], pos), pos) + [Some(pos[SourceKey(rels[i])]), Some(pos[TargetKey(rels[i])]), None]
              && EdgeInfos(KeptEdges(rels[..i + 1], pos)) == EdgeInfos(KeptEdges(rels[..i], pos)) + [EdgeInfoOf(rels[i])]
    ensures !Drawn(rels[i], pos) ==> KeptEdges(rels[..i + 1], pos) == KeptEdges(rels[..i], pos)
  {
    var kept := KeptEdges(rels[..i], pos);
    KeptSnoc(rels, pos, i);
    if Drawn(rels[i], pos) {
      EdgePointsSnoc(kept, pos, rels[i]);
      EdgeInfosSnoc(kept, rels[i]);
    } else {
      assert kept + [] == kept;
    }
  }

  // ---------------------------------------------------------------------
  // Node traces
  // ---------------------------------------------------------------------

  /** The keys of `node_colors`, in dict order: one trace each. */
  const TraceKeys: seq<string> := ["symptom", "disease", "treatment", "outcome", "risk_factor", "test", "default"]

  function Colour(key: string): string {
    if key == "symptom" then "#FF6B6B"
    else if key == "disease" then "#4ECDC4"
    else if key == "treatment" then "#45B7D1"
    else if key == "outcome" then "#96CEB4"
    else if key == "risk_factor" then "#FECA57"
    else if key == "test" then "#FF9FF3"
    else "#95A5A6"
  }

  function Size(key: string): nat {
    if key == "disease" then 35
    else if key == "treatment" then 30
    else if key == "symptom" || key == "outcome" || key == "test" then 25
    else 20
  }

  /** `key.replace('_', ' ').title()` */
  function TraceName(key: string): string {
    PyTitle(ReplaceAll(key, "_", " "))
  }

  /** The trace a node joins: its type when that is one of the seven keys
      (case-sensitively), "default" otherwise. */
  function TraceKey(n: Node): (k: string)
    ensures k in TraceKeys
    ensures n.kind.Some? && n.kind.value in TraceKeys ==> k == n.kind.value
    ensures n.kind.None? || n.kind.value !in TraceKeys ==> k == "default"
  {
    var t := n.kind.GetOr("default");
    if t in TraceKeys then t else "default"
  }

  /** One marker: where, the text shown (the label, else the id), and the
      id as hover data. */
  datatype Marker = Marker(at: Slot, text: string, id: string)

  predicate Identified(nodes: seq<Node>) {
    forall i :: 0 <= i < |nodes| ==> nodes[i].id.Some?
  }

  function MarkerOf(n: Node, pos: map<string, Slot>): Marker
    requires n.id.Some? && n.id.value in pos
  {
    Marker(pos[n.id.value], n.caption.GetOr(n.id.value), n.id.value)
  }

  /** The markers of trace `key`: positioned nodes of that trace, in input
      order. */
  function Markers(nodes: seq<Node>, pos: map<string, Slot>, key: string): seq<Marker>
    requires Identified(nodes)
    decreases |nodes|
  {
    if nodes == [] then []
    else
      var n := |nodes| - 1;
      var x := nodes[n];
      Markers(nodes[..n], pos, key) + (if x.id.value in pos && TraceKey(x) == key then [MarkerOf(x, pos)] else [])
  }

  lemma MarkersSnoc(nodes: seq<Node>, pos: map<string, Slot>, i: nat, key: string)
    requires Identified(nodes) && i < |nodes|
    ensures Identified(nodes[..i]) && Identified(nodes[..i + 1])
    ensures Markers(nodes[..i + 1], pos, key) == Markers(nodes[..i], pos, key)
              + (if nodes[i].id.value in pos && TraceKey(nodes[i]) == key then [MarkerOf(nodes[i], pos)] else [])
  {
    assert nodes[..i + 1][..i] == nodes[..i];
  }

  /** Lines 144-176: seven empty traces, then each positioned node appended
      to the trace of its type. */
  method FillTraces(nodes: seq<Node>, pos: map<string, Slot>) returns (traces: map<string, seq<Marker>>)
    requires Identified(nodes)
    ensures forall k :: k in traces <==> k in TraceKeys
    ensures forall k :: k in traces ==> traces[k] == Markers(nodes, pos, k)
  {
    traces := map k | k in TraceKeys :: [];
    for i := 0 to |nodes|
      invariant forall k :: k in traces <==> k in TraceKeys
      invariant forall k :: k in traces ==> traces[k] == Markers(nodes[..i], pos, k)
    {
      var node := nodes[i];
      forall k {
        MarkersSnoc(nodes, pos, i, k);
      }
      if node.id.value !in pos {
        continue;
      }
      var nodeType := node.kind.GetOr("default");
      if nodeType !in traces {
        nodeType := "default";
      }
      traces := traces[nodeType := traces[nodeType] + [MarkerOf(node, pos)]];
    }
    assert nodes[..|nodes|] == nodes;
  }

  /** One node trace as drawn. */
  datatype Trace = Trace(name: string, colour: string, size: nat, markers: seq<Marker>)

  /** Line 179: the traces of `keys` that received a marker, in key order. */
  function Traces(keys: seq<string>, nodes: seq<Node>, pos: map<string, Slot>): (r: seq<Trace>)
    requires Identified(nodes)
    ensures forall k :: 0 <= k < |r| ==> r[k].markers != []
    decreases |keys|
  {
    if keys == [] then []
    else
      var n := |keys| - 1;
      var ms := Markers(nodes, pos, keys[n]);
      Traces(keys[..n], nodes, pos) + (if ms == [] then [] else [Trace(TraceName(keys[n]), Colour(keys[n]), Size(keys[n]), ms)])
  }

  // ---------------------------------------------------------------------
  // The figure
  // ---------------------------------------------------------------------

  datatype Figure =
    | NoNodes                 // the "No nodes available to visualize" annotation
    | Plot(edgePoints: seq<Option<Slot>>, edges: seq<EdgeInfo>, traces: seq<Trace>)

  /** `create_plotly_visualization`; an error is the `KeyError` of a node
      without an id. */
  function FigureOf(d: Doc): Result<Figure, string> {
    var nodes := NodesOr(d);
    if nodes == [] then Ok(NoNodes)
    else
      match Layout(nodes)
      case Err(e) => Err(e)
      case Ok(pos) =>
        var kept := KeptEdges(RelationshipsOr(d), pos);
        Ok(Plot(EdgePoints(kept, pos), EdgeInfos(kept), Traces(TraceKeys, nodes, pos)))
  }

  /** Lines 90-204. */
  method CreatePlotlyVisualization(d: Doc) returns (f: Result<Figure, string>)
    ensures f == FigureOf(d)
  {
    var nodes := NodesOr(d);
    if nodes == [] {
      return Ok(NoNodes);
    }
    var pos := CalculateLayout(nodes);
    if pos.Err? {
      return Err(pos.error);
    }
    LaidOutNodesHaveIds(nodes);
    var points, info := CollectEdges(RelationshipsOr(d), pos.value);
    var traces := FillTraces(nodes, pos.value);
    var drawn := NonEmptyTraces(traces);
    TracesFromFilled(TraceKeys, nodes, pos.value, traces);
    f := Ok(Plot(points, info, drawn));
  }

  /** Line 179 over the filled dict. */
  method NonEmptyTraces(traces: map<string, seq<Marker>>) returns (r: seq<Trace>)
    requires forall k :: k in TraceKeys ==> k in traces
    ensures r == TracesFrom(TraceKeys, traces)
  {
    r := [];
    for i := 0 to |TraceKeys|
      invariant r == TracesFrom(TraceKeys[..i], traces)
    {
      var key := TraceKeys[i];
      assert TraceKeys[..i + 1][..i] == TraceKeys[..i];
      if |traces[key]| > 0 {
        r := r + [Trace(TraceName(key), Colour(key), Size(key), traces[key])];
      }
    }
    assert TraceKeys[..|TraceKeys|] == TraceKeys;
  }

  function TracesFrom(keys: seq<string>, traces: map<string, seq<Marker>>): seq<Trace>
    requires forall k :: k in keys ==> k in traces
    decreases |keys|
  {
    if keys == [] then []
    else
      var n := |keys| - 1;
      var ms := traces[keys[n]];
      TracesFrom(keys[..n], traces) + (if ms == [] then [] else [Trace(TraceName(keys[n]), Colour(keys[n]), Size(keys[n]), ms)])
  }

  lemma {:induction false} TracesFromFilled(keys: seq<string>, nodes: seq<Node>, pos: map<string, Slot>, traces: map<string, seq<Marker>>)
    requires Identified(nodes)
    requires forall k :: k in keys ==> k in traces && traces[k] == Markers(nodes, pos, k)
    ensures TracesFrom(keys, traces) == Traces(keys, nodes, pos)
    decreases |keys|
  {
    if keys != [] {
      TracesFromFilled(keys[..|keys| - 1], nodes, pos, traces);
    }
  }

  lemma LaidOutNodesHaveIds(nodes: seq<Node>)
    requires Layout(nodes).Ok?
    ensures Identified(nodes)
  {
  }

  /** A laid-out node list positions every node's id. */
  lemma LayoutPlacesEveryNode(nodes: seq<Node>)
    requires |nodes| > 0 && Layout(nodes).Ok?
    ensures Identified(nodes)
    ensures forall i :: 0 <= i < |nodes| ==> nodes[i].id.value in Layout(nodes).value
  {
    var order := Distinct(Keys(nodes));
    var vs := VisitsUpTo(order, nodes, |order|);
    VisitsIdentified(order, nodes, |order|);
    PositionKeys(map[], vs);
    VisitsAreAllNodes(order, nodes);
    forall i | 0 <= i < |nodes| ensures nodes[i].id.value in Layout(nodes).value {
      assert nodes[i] in multiset(VisitNodes(vs));
      var k :| 0 <= k < |vs| && VisitNodes(vs)[k] == nodes[i];
      assert vs[k].node.id.value in Place(map[], vs);
    }
  }

  // ---------------------------------------------------------------------
  // Every positioned node is drawn exactly once
  // ---------------------------------------------------------------------

  /** The trace key of every positioned node, in input order. */
  function DrawnKeys(nodes: seq<Node>, pos: map<string, Slot>): (r: seq<string>)
    requires Identified(nodes)
    ensures forall k :: 0 <= k < |r| ==> r[k] in TraceKeys
    ensures (forall i :: 0 <= i < |nodes| ==> nodes[i].id.value in pos) ==> |r| == |nodes|
    decreases |nodes|
  {
    if nodes == [] then []
    else
      var n := |nodes| - 1;
      var x := nodes[n];
      DrawnKeys(nodes[..n], pos) + (if x.id.value in pos then [TraceKey(x)] else [])
  }

  lemma {:induction false} MarkersCounted(nodes: seq<Node>, pos: map<string, Slot>, key: string)
    requires Identified(nodes)
    ensures |Markers(nodes, pos, key)| == Count(DrawnKeys(nodes, pos), key)
    decreases |nodes|
  {
    if nodes != [] {
      var n := |nodes| - 1;
      assert Identified(nodes[..n]);
      MarkersCounted(nodes[..n], pos, key);
      var before := DrawnKeys(nodes[..n], pos);
      if nodes[n].id.value in pos {
        assert DrawnKeys(nodes, pos) == before + [TraceKey(nodes[n])];
        CountSnoc(before, TraceKey(nodes[n]), key);
      } else {
        assert DrawnKeys(nodes, pos) == before + [];
        assert before + [] == before;
      }
    }
  }

  function MarkerTotal(traces: seq<Trace>): nat
    decreases |traces|
  {
    if traces == [] then 0 else MarkerTotal(traces[..|traces| - 1]) + |traces[|traces| - 1].markers|
  }

  lemma MarkerTotalSnoc(traces: seq<Trace>, t: Trace)
    ensures MarkerTotal(traces + [t]) == MarkerTotal(traces) + |t.markers|
  {
    assert (traces + [t])[..|traces|] == traces;
  }

  lemma {:induction false} TracesCountMarkers(keys: seq<string>, nodes: seq<Node>, pos: map<string, Slot>)
    requires Identified(nodes)
    ensures MarkerTotal(Traces(keys, nodes, pos)) == CountTotal(keys, DrawnKeys(nodes, pos))
    decreases |keys|
  {
    if keys != [] {
      var n := |keys| - 1;
      TracesCountMarkers(keys[..n], nodes, pos);
      MarkersCounted(nodes, pos, keys[n]);
      var ms := Markers(nodes, pos, keys[n]);
      if ms != [] {
        MarkerTotalSnoc(Traces(keys[..n], nodes, pos), Trace(TraceName(keys[n]), Colour(keys[n]), Size(keys[n]), ms));
      } else {
        assert Traces(keys[..n], nodes, pos) + [] == Traces(keys[..n], nodes, pos);
      }
    }
  }

  /** Every node of a drawn figure appears as exactly one marker, in the
      trace of its type or, failing that, the "default" trace. */
  lemma EveryNodeDrawnOnce(d: Doc)
    requires FigureOf(d).Ok? && FigureOf(d).value.Plot?
    ensures MarkerTotal(FigureOf(d).value.traces) == |NodesOr(d)|
  {
    var nodes := NodesOr(d);
    LayoutPlacesEveryNode(nodes);
    var pos := Layout(nodes).value;
    PlotTraces(d);
    TracesCountMarkers(TraceKeys, nodes, pos);
    TraceKeysDistinct();
    CountsSumToLength(TraceKeys, DrawnKeys(nodes, pos));
  }

  lemma PlotTraces(d: Doc)
    requires FigureOf(d).Ok? && FigureOf(d).value.Plot?
    ensures NodesOr(d) != [] && Layout(NodesOr(d)).Ok?
    ensures Identified(NodesOr(d))
    ensures FigureOf(d).value.traces == Traces(TraceKeys, NodesOr(d), Layout(NodesOr(d)).value)
  {
  }

  lemma TraceKeysDistinct()
    ensures forall i, j :: 0 <= i < j < |TraceKeys| ==> TraceKeys[i] != TraceKeys[j]
  {
  }

  /** An edge is kept exactly when both of its ends name positioned nodes;
      every relationship is drawn when every endpoint names a node. */
  lemma EdgesOfKnownNodes(d: Doc)
    requires FigureOf(d).Ok? && FigureOf(d).value.Plot?
    ensures |FigureOf(d).value.edges| <= |RelationshipsOr(d)|
    ensures |FigureOf(d).value.edgePoints| == 3 * |FigureOf(d).value.edges|
    ensures (forall k :: 0 <= k < |RelationshipsOr(d)| ==>
               (exists i :: 0 <= i < |NodesOr(d)| && NodesOr(d)[i].id == Some(SourceKey(RelationshipsOr(d)[k])))
               && (exists i :: 0 <= i < |NodesOr(d)| && NodesOr(d)[i].id == Some(TargetKey(RelationshipsOr(d)[k]))))
            ==> |FigureOf(d).value.edges| == |RelationshipsOr(d)|
  {
    var nodes := NodesOr(d);
    LayoutPlacesEveryNode(nodes);
  }

  // ---------------------------------------------------------------------
  // The relationship table
  // ---------------------------------------------------------------------

  datatype RelRow = RelRow(from: string, relationship: string, to: string, confidence: string, reasoning: string)

  /** Line 243: by operator precedence the whole conditional picks between
      the cut text and the reasoning (or "" when absent); the "No reasoning
      provided" default can never show. */
  function ReasoningCell(r: Relationship): (c: string)
    ensures |c| <= 103
    ensures r.reasoning.None? ==> c == ""
    ensures r.reasoning.Some? && |r.reasoning.value| <= 100 ==> c == r.reasoning.value
    ensures r.reasoning.Some? && |r.reasoning.value| > 100 ==>
              |c| == 103 && StartsWith(r.reasoning.value, c[..100]) && EndsWith(c, "...")
  {
    Ellipsize(r.reasoning.GetOr(""), 100)
  }

  function RowOf(r: Relationship): RelRow {
    RelRow(r.source.GetOr("Unknown"), r.kind.GetOr("unknown"), r.target.GetOr("Unknown"),
           r.confidence.GetOr("N/A"), ReasoningCell(r))
  }

  /** Lines 236-244. */
  method RelationshipRows(rels: seq<Relationship>) returns (rows: seq<RelRow>)
    ensures rows == Rows(rels)
  {
    rows := [];
    for i := 0 to |rels|
      invariant |rows| == i
      invariant forall k :: 0 <= k < i ==> rows[k] == RowOf(rels[k])
    {
      rows := rows + [RowOf(rels[i])];
    }
    assert rows == Rows(rels);
  }

  /** The table and the edge hover agree on the relationship's type and
      confidence, and on its ends wherever the relationship names them. */
  lemma TableAgreesWithHover(r: Relationship)
    ensures RowOf(r).relationship == EdgeInfoOf(r).kind
    ensures RowOf(r).confidence == EdgeInfoOf(r).confidence
    ensures r.source.Some? ==> RowOf(r).from == EdgeInfoOf(r).source
    ensures r.target.Some? ==> RowOf(r).to == EdgeInfoOf(r).target
    ensures r.source.None? ==> RowOf(r).from == "Unknown" && EdgeInfoOf(r).source == ""
  {
  }

  // ---------------------------------------------------------------------
  // Reasoning paths
  // ---------------------------------------------------------------------

  /** U+2192 RIGHTWARDS ARROW */
  const Arrow: string := "\U{2192}"

  /** What line 225 prints between two steps: the three UTF-8 bytes of
      U+2192 (E2 86 92) read as Windows-1252. */
  const ArrowAsWritten: string := "\U{E2}\U{2020}\U{2019}"

  /** The step lines of one path, joined by `arrow`. */
  function StepLinesWith(steps: seq<string>, arrow: string): (r: seq<string>)
    ensures |r| == |steps|
  {
    seq(|steps|, j requires 0 <= j < |steps| =>
      NatToString(j + 1) + ". " + steps[j]
      + (if j < |steps| - 1 then " " + arrow + " " + steps[j + 1] else " (Final conclusion)"))
  }

  function StepLinesAsWritten(steps: seq<string>): seq<string> {
    StepLinesWith(steps, ArrowAsWritten)
  }

  function StepLines(steps: seq<string>): seq<string> {
    StepLinesWith(steps, Arrow)
  }

  /** Each line names its step by number; every step but the last points at
      the next with an arrow, and the last is the conclusion. */
  lemma StepsAreLinked(steps: seq<string>, j: nat)
    requires j < |steps|
    ensures StartsWith(StepLines(steps)[j], NatToString(j + 1) + ". " + steps[j])
    ensures j < |steps| - 1 ==> EndsWith(StepLines(steps)[j], " " + Arrow + " " + steps[j + 1])
    ensures j == |steps| - 1 ==> EndsWith(StepLines(steps)[j], " (Final conclusion)")
  {
    var head := NatToString(j + 1) + ". " + steps[j];
    var tail := if j < |steps| - 1 then " " + Arrow + " " + steps[j + 1] else " (Final conclusion)";
    assert StepLines(steps)[j] == head + tail;
    assert (head + tail)[..|head|] == head;
    assert (head + tail)[|head + tail| - |tail|..] == tail;
  }

  /** As written, two steps are joined by "\U{E2}\U{2020}\U{2019}" and the line
      carries no arrow at all. */
  lemma ArrowIsGarbled()
    ensures StepLinesAsWritten(["A", "B"])[0] == "1. A \U{E2}\U{2020}\U{2019} B"
    ensures Arrow[0] !in StepLinesAsWritten(["A", "B"])[0]
    ensures StepLines(["A", "B"])[0] == "1. A \U{2192} B"
  {
    assert NatToString(1) == "1";
  }

  datatype PathPanel = PathPanel(title: string, logic: string, steps: seq<string>)

  /** One expander: title with the confidence, the logic line, and the step
      lines under a heading when the path has steps. */
  function PanelOf(i: nat, p: ReasoningPath): PathPanel {
    PathPanel(
      "Reasoning Path " + NatToString(i) + " (Confidence: " + p.confidence.GetOr("N/A") + ")",
      "**Logic:** " + p.logic.GetOr("No logic provided"),
      if p.steps.Some? && p.steps.value != [] then ["**Reasoning Steps:**"] + StepLines(p.steps.value) else [])
  }

  /** Lines 208-227: one panel per path, numbered from 1. */
  method DisplayReasoningPaths(paths: seq<ReasoningPath>) returns (panels: seq<PathPanel>)
    ensures panels == Panels(paths)
  {
    panels := [];
    for i := 0 to |paths|
      invariant |panels| == i
      invariant forall k :: 0 <= k < i ==> panels[k] == PanelOf(k + 1, paths[k])
    {
      panels := panels + [PanelOf(i + 1, paths[i])];
    }
    assert panels == Panels(paths);
  }

  /** A path with steps shows one line per step below the heading. */
  lemma PanelShowsEveryStep(i: nat, p: ReasoningPath)
    ensures |PanelOf(i, p).steps| == (if p.steps.Some? && p.steps.value != [] then |p.steps.value| + 1 else 0)
  {
  }

  // ---------------------------------------------------------------------
  // The per-type summary
  // ---------------------------------------------------------------------

  /** `node.get('type', 'unknown')`: note the default differs from the
      layout's "default". */
  function SummaryKey(n: Node): string {
    n.kind.GetOr("unknown")
  }

  function SummaryKeys(nodes: seq<Node>): (r: seq<string>)
    ensures |r| == |nodes|
    ensures forall i :: 0 <= i < |nodes| ==> r[i] == SummaryKey(nodes[i])
  {
    seq(|nodes|, i requires 0 <= i < |nodes| => SummaryKey(nodes[i]))
  }

  datatype Metric = Metric(caption: string, count: nat)

  function MetricsOf(order: seq<string>, keys: seq<string>): (r: seq<Metric>)
    ensures |r| == |order|
    decreases |order|
  {
    if order == [] then []
    else
      var n := |order| - 1;
      MetricsOf(order[..n], keys) + [Metric(TraceName(order[n]), Count(keys, order[n]))]
  }

  /** One metric per type in first-seen order, captioned with the title-cased
      type and valued with its count. */
  function Summary(nodes: seq<Node>): seq<Metric> {
    var keys := SummaryKeys(nodes);
    MetricsOf(Distinct(keys), keys)
  }

  /** `order` and `counts` are the key order and the values of the dict
      `node_types` after counting `keys`. */
  ghost predicate Tally(order: seq<string>, counts: map<string, nat>, keys: seq<string>) {
    && order == Distinct(keys)
    && (forall k :: k in counts <==> k in order)
    && (forall k :: k in counts ==> counts[k] == Count(keys, k))
  }

  /** A new type joins the key order at its end; a known one changes nothing. */
  lemma TallyOrderStep(order: seq<string>, counts: map<string, nat>, keys: seq<string>, x: string)
    requires order == Distinct(keys)
    requires forall k :: k in counts <==> k in order
    ensures x in counts <==> x in keys
    ensures (if x in counts then order else order + [x]) == Distinct(keys + [x])
  {
    assert x in order <==> x in keys;
    DistinctSnoc(keys, x);
  }

  /** The counted type goes up by one and no other count changes. */
  lemma TallyCountStep(counts: map<string, nat>, keys: seq<string>, x: string)
    requires forall k :: k in counts ==> counts[k] == Count(keys, k)
    requires x in counts <==> x in keys
    ensures var counts' := counts[x := (if x in counts then counts[x] else 0) + 1];
      forall k :: k in counts' ==> counts'[k] == Count(keys + [x], k)
  {
    var counts' := counts[x := (if x in counts then counts[x] else 0) + 1];
    forall k | k in counts' ensures counts'[k] == Count(keys + [x], k) {
      CountSnoc(keys, x, k);
      if k == x && x !in keys {
        CountOfAbsent(keys, x);
      }
    }
  }

  /** `node_types[t] = node_types.get(t, 0) + 1` counts one more key. */
  lemma TallyStep(order: seq<string>, counts: map<string, nat>, keys: seq<string>, x: string)
    requires Tally(order, counts, keys)
    ensures Tally(if x in counts then order else order + [x],
                  counts[x := (if x in counts then counts[x] else 0) + 1],
                  keys + [x])
  {
    TallyOrderStep(order, counts, keys, x);
    TallyCountStep(counts, keys, x);
  }

  /** Lines 275-278. */
  method CountTypes(nodes: seq<Node>) returns (order: seq<string>, counts: map<string, nat>)
    ensures order == Distinct(SummaryKeys(nodes))
    ensures forall k :: k in counts <==> k in order
    ensures forall k :: k in counts ==> counts[k] == Count(SummaryKeys(nodes), k)
  {
    order := [];
    counts := map[];
    for i := 0 to |nodes|
      invariant Tally(order, counts, SummaryKeys(nodes[..i]))
    {
      var nodeType := SummaryKey(nodes[i]);
      assert SummaryKeys(nodes[..i + 1]) == SummaryKeys(nodes[..i]) + [nodeType];
      TallyStep(order, counts, SummaryKeys(nodes[..i]), nodeType);
      if nodeType !in counts {
        order := order + [nodeType];
      }
      counts := counts[nodeType := (if nodeType in counts then counts[nodeType] else 0) + 1];
    }
    assert nodes[..|nodes|] == nodes;
  }

  /** Lines 272-287: the metrics in the dict's key order. */
  method NodeSummary(nodes: seq<Node>) returns (metrics: seq<Metric>)
    ensures metrics == Summary(nodes)
  {
    var order, counts := CountTypes(nodes);
    metrics := [];
    for i := 0 to |order|
      invariant metrics == MetricsOf(order[..i], SummaryKeys(nodes))
    {
      MetricsSnoc(order, SummaryKeys(nodes), i);
      metrics := metrics + [Metric(TraceName(order[i]), counts[order[i]])];
    }
    assert order[..|order|] == order;
  }

  /** The metrics of one more type are those before it and its own. */
  lemma MetricsSnoc(order: seq<string>, keys: seq<string>, i: nat)
    requires i < |order|
    ensures MetricsOf(order[..i + 1], keys) == MetricsOf(order[..i], keys) + [Metric(TraceName(order[i]), Count(keys, order[i]))]
  {
    assert order[..i + 1][..i] == order[..i];
  }

  function MetricTotal(ms: seq<Metric>): nat
    decreases |ms|
  {
    if ms == [] then 0 else MetricTotal(ms[..|ms| - 1]) + ms[|ms| - 1].count
  }

  lemma {:induction false} MetricTotalIsCountTotal(order: seq<string>, keys: seq<string>)
    ensures MetricTotal(MetricsOf(order, keys)) == CountTotal(order, keys)
    decreases |order|
  {
    if order != [] {
      var n := |order| - 1;
      MetricTotalIsCountTotal(order[..n], keys);
      var ms := MetricsOf(order, keys);
      assert ms[..n] == MetricsOf(order[..n], keys);
    }
  }

  /** The summary counts every node exactly once. */
  lemma SummaryCountsEveryNode(nodes: seq<Node>)
    ensures MetricTotal(Summary(nodes)) == |nodes|
  {
    var keys := SummaryKeys(nodes);
    MetricTotalIsCountTotal(Distinct(keys), keys);
    CountsSumToLength(Distinct(keys), keys);
  }

  // ---------------------------------------------------------------------
  // Rendering
  // ---------------------------------------------------------------------

  /** The text the application passes when it has no graph. */
  const NoGraph: string := "No knowledge graph available"

  /** Python truthiness of the argument. */
  predicate PyTruthy(p: Payload) {
    match p
    case Missing => false
    case Text(t) => t != []
    case Structured(d) => !IsEmptyDict(d)
  }

  datatype Rendering =
    | NoDataWarning                       // "No knowledge graph data available"
    | Failed(dump: Payload)               // the exception shown, then the argument as code
    | Rendered(complaint: Option<string>, figure: Figure, panels: seq<PathPanel>,
               table: seq<RelRow>, summary: seq<Metric>)

  function Panels(paths: seq<ReasoningPath>): seq<PathPanel> {
    seq(|paths|, i requires 0 <= i < |paths| => PanelOf(i + 1, paths[i]))
  }

  function Rows(rels: seq<Relationship>): seq<RelRow> {
    seq(|rels|, k requires 0 <= k < |rels| => RowOf(rels[k]))
  }

  /** `render_knowledge_graph`. A decoded value that is not an object, and a
      node without an id, raise inside the `try`. Empty sections show
      nothing, which the empty sequences stand for. */
  function Render(p: Payload, parse: Parser): Rendering {
    if !PyTruthy(p) || p == Text(NoGraph) then NoDataWarning
    else
      match ParseKnowledgeGraph(p, parse)
      case Err(_) => Failed(p)
      case Ok(dec) =>
        match dec.value
        case Object(d) => RenderDoc(p, dec.complaint, d)
        case _ => Failed(p)
  }

  /** Everything after decoding to an object. */
  function RenderDoc(p: Payload, complaint: Option<string>, d: Doc): Rendering {
    match FigureOf(d)
    case Err(_) => Failed(p)
    case Ok(f) => Rendered(complaint, f, Panels(d.reasoningPaths.GetOr([])), Rows(RelationshipsOr(d)), Summary(NodesOr(d)))
  }

  /** Lines 248-291. */
  method RenderKnowledgeGraph(p: Payload, parse: Parser) returns (r: Rendering)
    ensures r == Render(p, parse)
  {
    if !PyTruthy(p) || p == Text(NoGraph) {
      return NoDataWarning;
    }
    var decoded := ParseKnowledgeGraph(p, parse);
    if decoded.Err? || !decoded.value.value.Object? {
      return Failed(p);
    }
    r := RenderObject(p, decoded.value.complaint, decoded.value.value.doc);
  }

  /** Lines 259-287. */
  method RenderObject(p: Payload, complaint: Option<string>, d: Doc) returns (r: Rendering)
    ensures r == RenderDoc(p, complaint, d)
  {
    var fig := CreatePlotlyVisualization(d);
    if fig.Err? {
      return Failed(p);
    }
    var panels := DisplayReasoningPaths(d.reasoningPaths.GetOr([]));
    var rows := RelationshipRows(RelationshipsOr(d));
    var metrics := NodeSummary(NodesOr(d));
    r := Rendered(complaint, fig.value, panels, rows, metrics);
  }

  /** The warning shows exactly for a falsy argument or the no-graph
      sentinel; nothing is decoded then. */
  lemma WarningIffNoData(p: Payload, parse: Parser)
    ensures Render(p, parse).NoDataWarning? <==> !PyTruthy(p) || p == Text(NoGraph)
  {
  }

  /** An already decoded, non-empty graph handed over as a dict fails: the
      parse step calls `.strip()` on it. */
  lemma StructuredPayloadFails(d: Doc, parse: Parser)
    requires !IsEmptyDict(d)
    ensures Render(Structured(d), parse) == Failed(Structured(d))
  {
  }

  /** Text that does not decode still renders: the fallback graph with its
      single disease node, and the decoder's complaint. */
  lemma UndecodableTextRendersFallback(t: string, parse: Parser)
    requires t != [] && t != NoGraph && parse(CleanedJson(t)).Err?
    ensures Render(Text(t), parse).Rendered?
    ensures Render(Text(t), parse).complaint == Some(parse(CleanedJson(t)).error)
    ensures Render(Text(t), parse).panels == [] && Render(Text(t), parse).table == []
    ensures MetricTotal(Render(Text(t), parse).summary) == 1
  {
    RenderOfUndecodable(t, parse);
    FallbackRenders(Text(t), Some(parse(CleanedJson(t)).error));
  }

  lemma RenderOfUndecodable(t: string, parse: Parser)
    requires t != [] && t != NoGraph && parse(CleanedJson(t)).Err?
    ensures Render(Text(t), parse) == RenderDoc(Text(t), Some(parse(CleanedJson(t)).error), FallbackGraph())
  {
    var dec := Decode(CleanedJson(t), parse);
    assert ParseKnowledgeGraph(Text(t), parse) == Ok(dec);
    assert dec.value == Object(FallbackGraph());
    RenderOfObject(Text(t), parse, dec);
  }

  /** A payload that decodes to an object renders that object. */
  lemma RenderOfObject(p: Payload, parse: Parser, dec: Decoded)
    requires PyTruthy(p) && p != Text(NoGraph)
    requires ParseKnowledgeGraph(p, parse) == Ok(dec) && dec.value.Object?
    ensures Render(p, parse) == RenderDoc(p, dec.complaint, dec.value.doc)
  {
  }

  /** A document with a figure, no reasoning paths and no relationships
      renders with empty panels and table and a summary counting its nodes. */
  lemma RenderedWithoutSections(p: Payload, complaint: Option<string>, d: Doc)
    requires FigureOf(d).Ok?
    requires d.reasoningPaths.GetOr([]) == [] && RelationshipsOr(d) == []
    ensures RenderDoc(p, complaint, d).Rendered?
    ensures RenderDoc(p, complaint, d).complaint == complaint
    ensures RenderDoc(p, complaint, d).panels == [] && RenderDoc(p, complaint, d).table == []
    ensures MetricTotal(RenderDoc(p, complaint, d).summary) == |NodesOr(d)|
  {
    assert Panels([]) == [] && Rows([]) == [];
    SummaryCountsEveryNode(NodesOr(d));
  }

  lemma FallbackRenders(p: Payload, complaint: Option<string>)
    ensures RenderDoc(p, complaint, FallbackGraph()).Rendered?
    ensures RenderDoc(p, complaint, FallbackGraph()).complaint == complaint
    ensures RenderDoc(p, complaint, FallbackGraph()).panels == []
    ensures RenderDoc(p, complaint, FallbackGraph()).table == []
    ensures MetricTotal(RenderDoc(p, complaint, FallbackGraph()).summary) == 1
  {
    var d := FallbackGraph();
    FallbackLaysOut();
    assert d.reasoningPaths.GetOr([]) == [] && RelationshipsOr(d) == [] && |NodesOr(d)| == 1;
    RenderedWithoutSections(p, complaint, d);
  }

  lemma FallbackLaysOut()
    ensures FigureOf(FallbackGraph()).Ok?
  {
    var nodes := NodesOr(FallbackGraph());
    assert !exists i :: 0 <= i < |nodes| && nodes[i].id.None?;
  }
}
