/** The agent-side cleaner: model output (text or an already decoded
    object) becomes a graph document whose every node has a stripped `id`,
    `type` and `label`, or else one fixed error graph. */
module KnowledgeGraphAgent {
  import opened Common
  import opened GraphModel
  import MCPEngine

  /** What `generate_knowledge_graph` is handed. */
  datatype ModelOutput = NoOutput | Reply(text: string) | Dict(doc: Doc)

  /** Python truthiness: `None`, `""` and `{}` are false. */
  predicate IsFalsy(m: ModelOutput) {
    match m
    case NoOutput => true
    case Reply(t) => t == []
    case Dict(d) => IsEmptyDict(d)
  }

  const EmptyOutput: string := "Empty output from model"
  const NoJsonObject: string := "No valid JSON object found."
  const NodesMissing: string := "'nodes' key missing in parsed object."
  /** A decoder that returned something other than an object. */
  const NotAnObject: string := "parsed value is not an object"

  /** The one shape every failure returns: a single node `error` of type
      `error` with the given label, no relationships, and the message. */
  function ErrorGraph(title: string, message: string): Doc {
    Doc(Some([Node(Some("error"), Some(title), Some("error"), {})]), Some([]), None, Some(message), {})
  }

  // ---------------------------------------------------------------------
  // Text cleaning
  // ---------------------------------------------------------------------

  /** `re.sub(r"^```(?:json)?", "", raw)`: one leading fence, the longer
      form preferred. */
  function DropLeadingFence(s: string): (r: string)
    ensures StartsWith(s, JsonFence) ==> r == s[7..]
    ensures !StartsWith(s, JsonFence) && StartsWith(s, Fence) ==> r == s[3..]
    ensures !StartsWith(s, Fence) ==> r == s
  {
    if StartsWith(s, JsonFence) then s[7..]
    else if StartsWith(s, Fence) then s[3..]
    else s
  }

  /** `re.sub(r"```$", "", raw)` on text that does not end in a newline. */
  function DropTrailingFence(s: string): (r: string)
    ensures EndsWith(s, Fence) ==> r == s[..|s| - 3]
    ensures !EndsWith(s, Fence) ==> r == s
  {
    if EndsWith(s, Fence) then s[..|s| - 3] else s
  }

  /** Strip, drop one leading and one trailing fence, strip again. */
  function Unfenced(s: string): string {
    PyStrip(DropTrailingFence(DropLeadingFence(PyStrip(s))))
  }

  /** A "```json" fenced text comes out as the stripped inner text. */
  lemma UnfencedJsonBlock(x: string)
    ensures Unfenced(JsonFence + x + Fence) == PyStrip(x)
  {
    var t := JsonFence + x + Fence;
    assert t[0] == '`' && t[|t| - 1] == '`';
    StripKeeps(t, IsPyWhitespace);
    assert StartsWith(t, JsonFence);
    assert t[7..] == x + Fence;
    assert (x + Fence)[..|x|] == x;
  }

  /** `raw[1:-1]` */
  function Inner(raw: string): (r: string)
    ensures |raw| >= 2 ==> r == raw[1..|raw| - 1]
    ensures |raw| < 2 ==> r == []
  {
    if |raw| >= 2 then raw[1..|raw| - 1] else []
  }

  predicate Quoted(raw: string) {
    StartsWith(raw, "\"") && EndsWith(raw, "\"")
  }

  /** One pass of the unwrapping loop: a text between double quotes loses
      them, `\"` becomes `"` and `\n` a newline, and it is stripped. */
  function UnquoteOnce(raw: string): (r: string)
    ensures !Quoted(raw) ==> r == raw
  {
    if Quoted(raw) then PyStrip(ReplaceAll(ReplaceAll(Inner(raw), "\\\"", "\""), "\\n", "\n"))
    else raw
  }

  /** `k` passes of the unwrapping loop. */
  function UnquoteTimes(raw: string, k: nat): string
    decreases k
  {
    if k == 0 then raw else UnquoteOnce(UnquoteTimes(raw, k - 1))
  }

  function Quote(s: string): string {
    "\"" + s + "\""
  }

  /** Text without backslashes whose ends are not whitespace comes back
      from one pass exactly as it was before quoting. */
  lemma UnquoteQuoted(x: string)
    requires '\\' !in x
    requires Unpadded(x, IsPyWhitespace)
    ensures UnquoteOnce(Quote(x)) == x
  {
    var q := Quote(x);
    assert Quoted(q);
    assert Inner(q) == x;
    ReplaceAllAbsent(x, "\\\"", "\"");
    ReplaceAllAbsent(x, "\\n", "\n");
    StripKeeps(x, IsPyWhitespace);
  }

  /** Two passes are two applications of one pass. */
  lemma TwoPasses(s: string)
    ensures UnquoteTimes(s, 2) == UnquoteOnce(UnquoteOnce(s))
  {
    assert UnquoteTimes(s, 1) == UnquoteOnce(s);
  }

  /** Two layers of quotes are removed ... */
  lemma TwoLayersRemoved(x: string)
    requires '\\' !in x && '"' !in x
    requires Unpadded(x, IsPyWhitespace)
    ensures UnquoteTimes(Quote(Quote(x)), 2) == x
  {
    var q := Quote(x);
    QuoteFacts(x);
    TwoPasses(Quote(q));
    QuoteLayer(q);
    assert UnquoteOnce(Quote(q)) == q;
    UnquoteQuoted(x);
  }

  /** ... and a third stays in place. */
  lemma ThirdLayerKept(x: string)
    requires '\\' !in x && '"' !in x
    requires Unpadded(x, IsPyWhitespace)
    ensures UnquoteTimes(Quote(Quote(Quote(x))), 2) == Quote(x)
  {
    QuoteFacts(x);
    QuoteLayer(Quote(x));
    QuoteLayer(Quote(Quote(x)));
    TwoPasses(Quote(Quote(Quote(x))));
  }

  lemma QuoteFacts(x: string)
    requires '\\' !in x
    ensures '\\' !in Quote(x) && Quoted(Quote(x))
  {
  }

  /** Peeling a layer whose content is itself quoted text without
      backslashes. */
  lemma QuoteLayer(y: string)
    requires '\\' !in y && Quoted(y)
    ensures '\\' !in Quote(y) && Quoted(Quote(y))
    ensures UnquoteOnce(Quote(y)) == y
  {
    UnquoteQuoted(y);
  }

  /** The escaping one unwrapping pass undoes: a double quote is written
      `\"` and a newline `\n`; every other character stands for itself. */
  function Escape(x: string): string
    decreases |x|
  {
    if x == [] then []
    else (if x[0] == '"' then "\\\"" else if x[0] == '\n' then "\\n" else [x[0]]) + Escape(x[1..])
  }

  /** The same escaping for newlines only: what is left once `\"` is undone. */
  function EscapeNewlines(x: string): string
    decreases |x|
  {
    if x == [] then []
    else (if x[0] == '\n' then "\\n" else [x[0]]) + EscapeNewlines(x[1..])
  }

  /** The first replacement of a pass turns escaped quotes back into quotes. */
  lemma {:induction false} QuotesUnescaped(x: string)
    requires '\\' !in x
    ensures ReplaceAll(Escape(x), "\\\"", "\"") == EscapeNewlines(x)
    decreases |x|
  {
    if x != [] {
      var rest := x[1..];
      assert '\\' !in rest by {
        assert forall c :: c in rest ==> c in x;
      }
      QuotesUnescaped(rest);
      var e := Escape(rest);
      if x[0] == '"' {
        ReplaceAllHit("\\\"", e, "\"");
      } else if x[0] == '\n' {
        var s := "\\n" + e;
        assert s[0..2] == "\\n";
        ReplaceAllMiss(s, "\\\"", "\"");
        assert s[1..] == "n" + e;
        ReplaceAllMiss(s[1..], "\\\"", "\"");
        assert s[1..][1..] == e;
      } else {
        assert x[0] != '\\';
        assert !OccursAt([x[0]] + e, "\\\"", 0) by {
          if |[x[0]] + e| >= 2 {
            assert ([x[0]] + e)[0..2][0] == x[0];
          }
        }
        ReplaceAllMiss([x[0]] + e, "\\\"", "\"");
        assert ([x[0]] + e)[1..] == e;
      }
    }
  }

  /** The second replacement of a pass turns escaped newlines back into
      newlines. */
  lemma {:induction false} NewlinesUnescaped(x: string)
    requires '\\' !in x
    ensures ReplaceAll(EscapeNewlines(x), "\\n", "\n") == x
    decreases |x|
  {
    if x != [] {
      var rest := x[1..];
      assert '\\' !in rest by {
        assert forall c :: c in rest ==> c in x;
      }
      NewlinesUnescaped(rest);
      var e := EscapeNewlines(rest);
      if x[0] == '\n' {
        ReplaceAllHit("\\n", e, "\n");
      } else {
        assert x[0] != '\\';
        assert !OccursAt([x[0]] + e, "\\n", 0) by {
          if |[x[0]] + e| >= 2 {
            assert ([x[0]] + e)[0..2][0] == x[0];
          }
        }
        ReplaceAllMiss([x[0]] + e, "\\n", "\n");
        assert ([x[0]] + e)[1..] == e;
      }
      assert [x[0]] + rest == x;
    }
  }

  /** One pass undoes one layer of quoting with its escapes: quoting the
      escaped form of a text without backslashes or outer white space gives
      the text back. */
  lemma UnquoteEscaped(x: string)
    requires '\\' !in x
    requires Unpadded(x, IsPyWhitespace)
    ensures UnquoteOnce(Quote(Escape(x))) == x
  {
    var q := Quote(Escape(x));
    assert Quoted(q);
    assert Inner(q) == Escape(x);
    QuotesUnescaped(x);
    NewlinesUnescaped(x);
    StripKeeps(x, IsPyWhitespace);
  }

  /** The characters `raw.strip(", \n\r\t")` removes. */
  predicate IsJunk(c: char) {
    c == ',' || c == ' ' || c == '\n' || c == '\r' || c == '\t'
  }

  function TrimJunk(s: string): string {
    Strip(s, IsJunk)
  }

  /** `re.search(r"\{[\s\S]*\}", s)`: from the first `{` to the last `}`,
      if some `}` follows some `{`. */
  function JsonWindow(s: string): (r: Option<string>)
    ensures r.Some? <==> exists i, j :: 0 <= i < j < |s| && s[i] == '{' && s[j] == '}'
    ensures r.Some? ==> exists i :: OccursAt(s, r.value, i) && '{' !in s[..i] && '}' !in s[i + |r.value|..]
    ensures r.Some? ==> |r.value| >= 2 && r.value[0] == '{' && r.value[|r.value| - 1] == '}'
  {
    match FirstIndexOf(s, '{')
    case None => None
    case Some(i) =>
      match LastIndexOf(s, '}')
      case None => None
      case Some(j) =>
        if i < j then
          assert OccursAt(s, s[i..j + 1], i);
          Some(s[i..j + 1])
        else
          assert forall a :: 0 <= a < i ==> s[a] != '{' by {
            forall a | 0 <= a < i ensures s[a] != '{' { assert s[a] == s[..i][a]; }
          }
          assert forall b :: j < b < |s| ==> s[b] != '}' by {
            forall b | j < b < |s| ensures s[b] != '}' { assert s[b] == s[j + 1..][b - j - 1]; }
          }
          None
  }

  /** The text the decoder is given, before the window is taken. */
  function CleanedText(t: string): string {
    TrimJunk(UnquoteTimes(Unfenced(t), 2))
  }

  /** A fenced object literal reaches the decoder untouched. */
  lemma FencedObjectReachesDecoder(x: string)
    requires |x| >= 2 && x[0] == '{' && x[|x| - 1] == '}'
    ensures CleanedText(JsonFence + x + Fence) == x
    ensures JsonWindow(x) == Some(x)
  {
    var t := JsonFence + x + Fence;
    UnfencedObject(x);
    UnquotedStays(x);
    ObjectTextIsStripped(x);
    WholeWindow(x);
  }

  lemma UnfencedObject(x: string)
    requires |x| >= 2 && x[0] == '{' && x[|x| - 1] == '}'
    ensures Unfenced(JsonFence + x + Fence) == x
  {
    UnfencedJsonBlock(x);
    ObjectTextIsStripped(x);
  }

  /** Text between braces has nothing for either strip to remove. */
  lemma ObjectTextIsStripped(x: string)
    requires |x| >= 2 && x[0] == '{' && x[|x| - 1] == '}'
    ensures PyStrip(x) == x && TrimJunk(x) == x
  {
    StripKeeps(x, IsPyWhitespace);
    StripKeeps(x, IsJunk);
  }

  /** Text that does not start and end with a double quote passes the
      unwrapping loop unchanged. */
  lemma UnquotedStays(x: string)
    requires !Quoted(x)
    ensures UnquoteTimes(x, 2) == x
  {
    assert UnquoteTimes(x, 1) == UnquoteOnce(x) == x;
  }

  lemma WholeWindow(x: string)
    requires |x| >= 2 && x[0] == '{' && x[|x| - 1] == '}'
    ensures JsonWindow(x) == Some(x)
  {
    assert FirstIndexOf(x, '{') == Some(0);
    assert LastIndexOf(x, '}') == Some(|x| - 1);
    assert x[0..|x|] == x;
  }

  // ---------------------------------------------------------------------
  // Node normalisation
  // ---------------------------------------------------------------------

  /** Lines 79-81: `id` from `id`, else `label`, else "unknown_id`; `type`
      from `type`, else "unknown"; `label` from `label`, else the new `id`;
      each stripped. Other keys are kept. */
  function NormalizeNode(n: Node): (r: Node)
    ensures Normalized(r) && r.others == n.others
  {
    var id := PyStrip(n.id.GetOr(n.caption.GetOr("unknown_id")));
    Node(Some(id), Some(PyStrip(n.caption.GetOr(id))), Some(PyStrip(n.kind.GetOr("unknown"))), n.others)
  }

  /** `id` comes from `id`, else from `label`, else is "unknown_id". */
  lemma NormalizedIdSource(n: Node)
    ensures n.id.Some? ==> NormalizeNode(n).id == Some(PyStrip(n.id.value))
    ensures n.id.None? && n.caption.Some? ==> NormalizeNode(n).id == Some(PyStrip(n.caption.value))
    ensures n.id.None? && n.caption.None? ==> NormalizeNode(n).id == Some("unknown_id")
  {
    LiteralStripped("unknown_id");
  }

  /** `label` comes from `label`, else is the new `id`. */
  lemma NormalizedLabelSource(n: Node)
    ensures n.caption.Some? ==> NormalizeNode(n).caption == Some(PyStrip(n.caption.value))
    ensures n.caption.None? ==> NormalizeNode(n).caption == NormalizeNode(n).id
  {
    if n.caption.None? {
      StripIdempotent(n.id.GetOr("unknown_id"), IsPyWhitespace);
    }
  }

  /** `type` comes from `type`, else is "unknown". */
  lemma NormalizedTypeSource(n: Node)
    ensures n.kind.Some? ==> NormalizeNode(n).kind == Some(PyStrip(n.kind.value))
    ensures n.kind.None? ==> NormalizeNode(n).kind == Some("unknown")
  {
    LiteralStripped("unknown");
  }

  lemma LiteralStripped(w: string)
    requires forall k :: 0 <= k < |w| ==> 'a' <= w[k] <= 'z' || w[k] == '_'
    ensures PyStrip(w) == w
  {
    StripKeeps(w, IsPyWhitespace);
  }

  /** Normalising twice is normalising once. */
  lemma NormalizeIdempotent(n: Node)
    ensures NormalizeNode(NormalizeNode(n)) == NormalizeNode(n)
  {
    var r := NormalizeNode(n);
    StripKeeps(r.id.value, IsPyWhitespace);
    StripKeeps(r.kind.value, IsPyWhitespace);
    StripKeeps(r.caption.value, IsPyWhitespace);
  }

  /** `id`, `type` and `label` present, none with surrounding whitespace. */
  predicate Normalized(n: Node) {
    n.id.Some? && n.kind.Some? && n.caption.Some?
    && Unpadded(n.id.value, IsPyWhitespace) && Unpadded(n.kind.value, IsPyWhitespace)
    && Unpadded(n.caption.value, IsPyWhitespace)
  }

  /** A well-formed result: nodes and relationships present, every node
      normalised. */
  predicate WellFormed(g: Doc) {
    g.nodes.Some? && g.relationships.Some?
    && forall k :: 0 <= k < |g.nodes.value| ==> Normalized(g.nodes.value[k])
  }

  // ---------------------------------------------------------------------
  // The whole function
  // ---------------------------------------------------------------------

  /** What the decoder makes of a window: an object, or the decoder's
      message. */
  function DecodeWindow(w: string, parse: Parser): Result<Doc, string> {
    match parse(w)
    case Err(e) => Err(e)
    case Ok(Object(d)) => Ok(d)
    case Ok(_) => Err(NotAnObject)
  }

  /** Lines 49-71 on a text reply. */
  function Decode(t: string, parse: Parser): Result<Doc, string> {
    match JsonWindow(CleanedText(t))
    case None => Err(NoJsonObject)
    case Some(w) => DecodeWindow(w, parse)
  }

  /** The document before normalisation, or the message of the exception
      the `try` block catches. */
  function Parsed(m: ModelOutput, parse: Parser): Result<Doc, string> {
    if IsFalsy(m) then Err(EmptyOutput)
    else
      match m
      case Dict(d) => Ok(d)
      case Reply(t) => Decode(t, parse)
  }

  function NormalizeAll(nodes: seq<Node>): (r: seq<Node>)
    ensures |r| == |nodes|
    ensures forall k :: 0 <= k < |nodes| ==> r[k] == NormalizeNode(nodes[k])
  {
    seq(|nodes|, k requires 0 <= k < |nodes| => NormalizeNode(nodes[k]))
  }

  /** Normalisation and the `relationships` default on a parsed document;
      the error graph for a failure or a missing "nodes" key. */
  function Finish(p: Result<Doc, string>): Doc {
    match p
    case Err(e) => ErrorGraph("Parsing failed", e)
    case Ok(d) =>
      if d.nodes.None? then ErrorGraph("Parsing failed", NodesMissing)
      else
        d.(nodes := Some(NormalizeAll(d.nodes.value)),
           relationships := if d.relationships.None? then Some([]) else d.relationships)
  }

  function Generated(m: ModelOutput, parse: Parser): Doc {
    Finish(Parsed(m, parse))
  }

  /** Lines 49-63: fences, quote layers, junk. */
  method CleanText(text: string) returns (raw: string)
    ensures raw == CleanedText(text)
  {
    raw := PyStrip(text);
    raw := DropLeadingFence(raw);
    raw := DropTrailingFence(raw);
    raw := PyStrip(raw);
    ghost var start := raw;
    for k := 0 to 2
      invariant raw == UnquoteTimes(start, k)
    {
      if Quoted(raw) {
        raw := PyStrip(ReplaceAll(ReplaceAll(Inner(raw), "\\\"", "\""), "\\n", "\n"));
      }
    }
    raw := TrimJunk(raw);
  }

  /** Lines 78-81: every node fixed in place, in order. */
  method NormalizeNodes(nodes: seq<Node>) returns (out: seq<Node>)
    ensures out == NormalizeAll(nodes)
  {
    out := nodes;
    for i := 0 to |out|
      invariant FixedUpTo(out, nodes, i)
    {
      FixStep(out, nodes, i);
      out := out[i := NormalizeNode(out[i])];
    }
    FixedAll(out, nodes);
  }

  /** The first `i` nodes are normalised, the rest untouched. */
  ghost predicate FixedUpTo(out: seq<Node>, nodes: seq<Node>, i: nat) {
    |out| == |nodes| && i <= |nodes|
    && (forall k :: 0 <= k < i ==> out[k] == NormalizeNode(nodes[k]))
    && (forall k :: i <= k < |out| ==> out[k] == nodes[k])
  }

  lemma FixStep(out: seq<Node>, nodes: seq<Node>, i: nat)
    requires FixedUpTo(out, nodes, i) && i < |nodes|
    ensures out[i] == nodes[i]
    ensures FixedUpTo(out[i := NormalizeNode(nodes[i])], nodes, i + 1)
  {
    var next := out[i := NormalizeNode(nodes[i])];
    forall k | 0 <= k < i + 1 ensures next[k] == NormalizeNode(nodes[k]) {
      if k < i { assert next[k] == out[k]; }
    }
    forall k | i + 1 <= k < |next| ensures next[k] == nodes[k] {
      assert next[k] == out[k];
    }
  }

  lemma FixedAll(out: seq<Node>, nodes: seq<Node>)
    requires FixedUpTo(out, nodes, |nodes|)
    ensures out == NormalizeAll(nodes)
  {
  }

  /** `generate_knowledge_graph`: never fails; yields the normalised
      document or the error graph. */
  method GenerateKnowledgeGraph(output: ModelOutput, parse: Parser) returns (g: Doc)
    ensures g == Generated(output, parse)
    ensures WellFormed(g)
  {
    var parsed: Result<Doc, string>;
    if IsFalsy(output) {
      parsed := Err(EmptyOutput);
    } else if output.Dict? {
      parsed := Ok(output.doc);
    } else {
      var raw := CleanText(output.text);
      var window := JsonWindow(raw);
      if window.None? {
        parsed := Err(NoJsonObject);
      } else {
        parsed := DecodeWindow(window.value, parse);
      }
    }
    assert parsed == Parsed(output, parse);
    FinishWellFormed(parsed);
    if parsed.Err? {
      g := ErrorGraph("Parsing failed", parsed.error);
    } else if parsed.value.nodes.None? {
      g := ErrorGraph("Parsing failed", NodesMissing);
    } else {
      var nodes := NormalizeNodes(parsed.value.nodes.value);
      g := parsed.value.(nodes := Some(nodes));
      if g.relationships.None? {
        g := g.(relationships := Some([]));
      }
    }
  }

  lemma ErrorGraphWellFormed(title: string, message: string)
    requires Unpadded(title, IsPyWhitespace)
    ensures WellFormed(ErrorGraph(title, message))
  {
  }

  /** Every outcome is well formed: the error graph, or a normalised
      document with a relationship list. */
  lemma FinishWellFormed(p: Result<Doc, string>)
    ensures WellFormed(Finish(p))
  {
    match p
    case Err(e) => ErrorGraphWellFormed("Parsing failed", e);
    case Ok(d) =>
      if d.nodes.None? {
        ErrorGraphWellFormed("Parsing failed", NodesMissing);
      }
  }

  /** Each failure path ends in the one error graph, carrying its own
      message: a falsy input, a text reply that does not decode to an
      object, and an object without "nodes". */
  lemma FailuresGiveErrorGraph(m: ModelOutput, parse: Parser)
    ensures IsFalsy(m) ==> Generated(m, parse) == ErrorGraph("Parsing failed", EmptyOutput)
    ensures !IsFalsy(m) && m.Reply? && Decode(m.text, parse).Err? ==>
              Generated(m, parse) == ErrorGraph("Parsing failed", Decode(m.text, parse).error)
    ensures Parsed(m, parse).Ok? && Parsed(m, parse).value.nodes.None? ==>
              Generated(m, parse) == ErrorGraph("Parsing failed", NodesMissing)
  {
  }

  /** A text reply fails to decode with "No valid JSON object found." when
      no `}` follows a `{`, and with the decoder's message when the window
      does not decode. */
  lemma DecodeFailures(t: string, parse: Parser)
    ensures (forall i, j :: 0 <= i < j < |CleanedText(t)| ==> !(CleanedText(t)[i] == '{' && CleanedText(t)[j] == '}'))
              ==> Decode(t, parse) == Err(NoJsonObject)
    ensures JsonWindow(CleanedText(t)).Some? && parse(JsonWindow(CleanedText(t)).value).Err? ==>
              Decode(t, parse) == Err(parse(JsonWindow(CleanedText(t)).value).error)
  {
    var w := JsonWindow(CleanedText(t));
    if w.None? {
      assert Decode(t, parse) == Err(NoJsonObject);
    } else {
      assert Decode(t, parse) == DecodeWindow(w.value, parse);
    }
  }

  /** A decoded object skips text cleaning: the decoder plays no part. */
  lemma DictIgnoresDecoder(d: Doc, p1: Parser, p2: Parser)
    ensures Generated(Dict(d), p1) == Generated(Dict(d), p2)
  {
  }

  /** On success the node list keeps its length and order, each node
      normalised in place; present relationships and every other key are
      kept as they are. */
  lemma FinishKeepsDocument(d: Doc)
    requires d.nodes.Some?
    ensures Finish(Ok(d)).nodes.Some? && |Finish(Ok(d)).nodes.value| == |d.nodes.value|
    ensures forall k :: 0 <= k < |d.nodes.value| ==> Finish(Ok(d)).nodes.value[k] == NormalizeNode(d.nodes.value[k])
    ensures d.relationships.Some? ==> Finish(Ok(d)).relationships == d.relationships
    ensures d.relationships.None? ==> Finish(Ok(d)).relationships == Some([])
    ensures Finish(Ok(d)).reasoningPaths == d.reasoningPaths && Finish(Ok(d)).error == d.error
            && Finish(Ok(d)).others == d.others
  {
  }

  /** A fenced object literal from the model is decoded exactly as it is
      written between the fences. */
  lemma FencedReplyDecodesInner(x: string, parse: Parser)
    requires |x| >= 2 && x[0] == '{' && x[|x| - 1] == '}'
    ensures Decode(JsonFence + x + Fence, parse) == DecodeWindow(x, parse)
  {
    FencedObjectReachesDecoder(x);
  }

  // ---------------------------------------------------------------------
  // Running the agent
  // ---------------------------------------------------------------------

  /** `run_knowledge_graph`: the agent's response goes to the cleaner; an
      agent that raises gives the error graph labelled "Agent failed". */
  method RunKnowledgeGraph(agent: MCPEngine.Agent, contextText: string, model: MCPEngine.Model, parse: Parser)
    returns (g: Doc)
    ensures MCPEngine.AgentRun(agent.name, agent.template, contextText, model).Err? ==>
              g == ErrorGraph("Agent failed", MCPEngine.AgentRun(agent.name, agent.template, contextText, model).error)
    ensures MCPEngine.AgentRun(agent.name, agent.template, contextText, model).Ok? ==>
              g == Generated(Reply(MCPEngine.AgentRun(agent.name, agent.template, contextText, model).value.response), parse)
    ensures WellFormed(g)
  {
    var raw := agent.Run(contextText, model);
    if raw.Err? {
      g := ErrorGraph("Agent failed", raw.error);
      ErrorGraphWellFormed("Agent failed", raw.error);
      return;
    }
    g := GenerateKnowledgeGraph(Reply(raw.value.response), parse);
  }
}
