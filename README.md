# DiagnoBridge knowledge-graph pipeline, in Dafny

DiagnoBridge turns a patient's symptoms into a diagnosis report and books
appointments on Google Calendar. A chain of language-model agents produces
the report and a medical *knowledge graph*: nodes typed as symptom, disease,
treatment or outcome, plus relationships between them. That graph arrives
as untrusted model output. It is cleaned, parsed and shown four times over:

- by the agent-side cleaner (`agents/knowledge_graph_agent.py`);
- by the Streamlit visualiser class (`utils/__pycache__/knowledge_graph_visualizer.py`);
- by the Streamlit app's own chart (`app.py`);
- by the React viewer panel (`src/components/KnowledgeGraphViewer.jsx`).

Next to it sit the agent orchestrator (`crews/mcp_engine.py`), the
appointment pages (`src/pages/ViewAppointments.jsx`,
`src/pages/LandingPage.jsx`) and the example Flask back end
(`backend-api-example.py`).

This project models that logic and proves what each step promises.

- `common.dfy` (`Common`): Python and JavaScript string primitives with
  their exact white-space sets.
  - `strip`/`trim`, `lower`, `title`, `split`/`join`, `find`/`rfind`, `str(n)`;
  - first-seen de-duplication and counting.
- `graph_model.dfy` (`GraphModel`): shared pieces.
  - The typed graph record (`Node`, `Relationship`, `ReasoningPath`, `Doc`).
  - A JSON decoder passed in as a parameter (`Parser`).
  - The payload shapes (absent, text, already decoded).
  - The literal "```json" / "```" fence strip.
  - The six-entry category colour table.
- `viewer.dfy` (`KnowledgeGraphViewer`): the React panel.
  - A `Panel` class whose `graphData` snapshot is updated by the effect.
  - The pure projections: layout slots, colour lookup, first-match edge
    resolution, label truncation, counts, and the node and relationship lists.
- `cleaner.dfy` (`KnowledgeGraphAgent`): `generate_knowledge_graph`.
  - The text rewrites (fences, two quote layers, junk, the `{...}` window).
  - The in-place node normalisation loop.
  - The one error graph.
  - `run_knowledge_graph`.
- `mcp.dfy` (`MCPEngine`): `call_gemini`, the `MCPAgent` class and the
  `MCPOrchestrator` class with its context-accumulating loop.
- `visualizer_layout.dfy` (`VisualizerLayout`) and `visualizer.dfy`
  (`KnowledgeGraphVisualizer`): the Streamlit visualiser.
  - Type grouping.
  - The id-keyed position map, with index slots instead of trigonometry.
  - Edge filtering and hover records, and per-type trace buckets.
  - The relationships table, the reasoning-path panels and the per-type
    summary.
  - The render gating.
- `app.py` logic, in `app.dfy` (`StreamlitApp`):
  - per-node lists, the `id_to_pos` edge filter, the legend and counts;
  - the graph-tab gating;
  - report-link extraction;
  - the booking interval.
- `appointments.dfy`: `Appointments` (the Google Docs URL scan, `formatDate`
  dispatch, titles, end times), `ViewAppointments` and `LandingPage`
  (line classification, docUrl preference, delete gating, first-three
  selection, link truncation).
- `backend.dfy` (`BackendApi`):
  - doctor filtering and lookup;
  - the validation and status rules of `diagnose` and `book_appointment`,
    with the Google services as parameters.

Loops in the source are Dafny methods with loop invariants. Each is proved
equal to a specification function, and the properties are proved about that
function. Objects whose fields change are classes: the viewer panel, the MCP
agent and the orchestrator. Everything else is functions and lemmas.

Some behaviour of the code is easy to misread; the model follows what the
code does:

- A falsy payload leaves the viewer's last snapshot in place. It does not
  reset it to `null` (`Panel.OnPropsChange`).
- The panel re-parses on every change of `kgData` or `isOpen` while both are
  truthy, not only when the payload changed.
- Unknown types do not all fall back to the `unknown` colour, and a node with
  neither `label` nor `id` does not display as `undefined`; it throws. Both
  are under Findings.
- The node list is shown in input order, not grouped by category.
- Duplicate ids are resolved by first match only in the React viewer. The
  Python visualiser and `app.py` key positions by id, so a later node wins.

## Model

| member | source | states |
|---|---|---|
| Common.IndexFrom | app.py:319-321 | the leftmost occurrence at or after a position, and none before it; `None` exactly when there is none |
| Common.ContainsIffFound | app.py:319-321 | `p in s` holds exactly when a leftmost occurrence exists |
| Common.ReplaceFirst | src/pages/ViewAppointments.jsx:164-166 | JavaScript `replace` with a string pattern leaves text without the pattern unchanged |
| Common.ReplaceFirstLeftmost | src/pages/ViewAppointments.jsx:164-166 | when the pattern occurs, exactly its leftmost occurrence is replaced and the text around it is kept |
| Common.ReplaceAllAbsent | agents/knowledge_graph_agent.py:60 | Python `replace` changes nothing when the pattern's first character never occurs |
| Common.ReplaceAllNone | agents/knowledge_graph_agent.py:60 | Python `replace` changes nothing when the pattern does not occur |
| Common.ReplaceAllLeftmost | agents/knowledge_graph_agent.py:60 | the leftmost occurrence is replaced, the text before it is kept, and the rest is replaced in turn |
| Common.StripLeft | app.py:322 | the result is a suffix, starts with a kept character, and everything removed is white space |
| Common.StripRight | app.py:37 | the result is a prefix, ends with a kept character, and everything removed is white space |
| Common.Strip | agents/knowledge_graph_agent.py:49 | the result is a substring of the input with no strippable character at either end |
| Common.StripIdempotent | agents/knowledge_graph_agent.py:55 | stripping twice is stripping once |
| Common.StripKeeps | agents/knowledge_graph_agent.py:63 | text whose ends are kept characters is its own strip |
| Common.AsciiLower | app.py:70 | `lower()` keeps the length and lower-cases each letter in place |
| Common.Capitalize | src/components/KnowledgeGraphViewer.jsx:81 | first character upper-cased, the rest unchanged |
| Common.PyTitle | app.py:132 | `title()` keeps the length |
| Common.Ellipsize | src/pages/LandingPage.jsx:279-281 | text within the limit is unchanged; longer text becomes its first `limit` characters plus "..." |
| Common.Split | app.py:320 | `split(sep)` yields at least one piece and no piece contains the separator |
| Common.JoinSplit | app.py:320 | joining the pieces with the separator gives the string back |
| Common.LastPieceIsSuffix | app.py:322 | `split(" ")[-1]` is a suffix of the split string |
| Common.SplitWithoutSeparator | src/pages/ViewAppointments.jsx:142 | a string without the separator splits into itself alone |
| Common.LastPieceAfterSeparator | app.py:322 | a string ending in a separator and a separator-free word has that word as its last piece |
| Common.FirstIndexOf | agents/knowledge_graph_agent.py:66 | the index of the first occurrence of a character; `None` exactly when it is absent |
| Common.LastIndexOf | agents/knowledge_graph_agent.py:66 | the index of the last occurrence of a character; `None` exactly when it is absent |
| Common.NatToString | app.py:69 | `str(i)` is a non-empty run of decimal digits with no leading zero |
| Common.NatToStringValue | app.py:69 | the decimal digits of `str(i)` read back as `i` |
| Common.Distinct | utils/__pycache__/knowledge_graph_visualizer.py:66-71 | first-seen order: every key occurs once, and exactly the keys of the input occur |
| Common.CountsSumToLength | utils/__pycache__/knowledge_graph_visualizer.py:275-278 | counts over distinct keys that cover every element add up to the number of elements |
| GraphModel.StripFence | app.py:38-41 | removes exactly 7 characters for a leading "```json" and exactly 3 for a trailing "```"; unfenced text is unchanged |
| GraphModel.FenceRoundTrip | app.py:36-42 | fencing any text and stripping the fence gives the text back |
| GraphModel.CategoryOf | app.py:57-64 | the category whose key is the type, or `unknown` exactly when no key matches |
| GraphModel.TableIsInjective | app.py:57-64 | no two categories share a key or a colour |
| KnowledgeGraphViewer.Ingest | src/components/KnowledgeGraphViewer.jsx:10-27 | a decoded object becomes the snapshot as is; text is trimmed and de-fenced, then parsed, and a parse failure yields `null` |
| KnowledgeGraphViewer.FencedPayloadCleaned | src/components/KnowledgeGraphViewer.jsx:12-18 | a fenced payload is cleaned to exactly its inner text |
| KnowledgeGraphViewer.FencedPayloadParsesInner | src/components/KnowledgeGraphViewer.jsx:11-19 | a fenced payload ingests exactly as its inner text would be parsed |
| KnowledgeGraphViewer.FencedTextIsTrimmed | src/components/KnowledgeGraphViewer.jsx:12 | `trim` leaves a fenced payload untouched, so only the fence markers are removed |
| KnowledgeGraphViewer.PlainTextReachesParserUnchanged | src/components/KnowledgeGraphViewer.jsx:12-19 | trimmed text without fence markers reaches `JSON.parse` unchanged |
| KnowledgeGraphViewer.Panel.constructor | src/components/KnowledgeGraphViewer.jsx:5 | the snapshot starts as `null` |
| KnowledgeGraphViewer.Panel.OnPropsChange | src/components/KnowledgeGraphViewer.jsx:7-29 | with a truthy payload while open, the snapshot becomes the ingested payload; otherwise it is left unchanged |
| KnowledgeGraphViewer.Panel.Render | src/components/KnowledgeGraphViewer.jsx:31-70 | nothing is rendered exactly when closed; an open panel shows the empty state exactly when the snapshot has no nodes |
| KnowledgeGraphViewer.ColorOfType | src/components/KnowledgeGraphViewer.jsx:117-118 | the colour of the category named by the lower-cased type, or the `unknown` colour when no category matches |
| KnowledgeGraphViewer.ColourIgnoresCase | src/components/KnowledgeGraphViewer.jsx:168-169 | types that differ only in letter case get the same normalised type and colour |
| KnowledgeGraphViewer.Layout | src/components/KnowledgeGraphViewer.jsx:46-54 | one placed node per input node, in order, keeping the node, at the slot determined by index and count only |
| KnowledgeGraphViewer.FindById | src/components/KnowledgeGraphViewer.jsx:95-100 | the first node with the id, no earlier one has it; `None` exactly when no node has it |
| KnowledgeGraphViewer.ResolveEdge | src/components/KnowledgeGraphViewer.jsx:94-101 | a line exists only if the source matches some node, and both ends are slots of the node list |
| KnowledgeGraphViewer.Edges | src/components/KnowledgeGraphViewer.jsx:94-113 | at most one line per relationship, and all are drawn exactly when every relationship resolves |
| KnowledgeGraphViewer.EdgesSelect | src/components/KnowledgeGraphViewer.jsx:94-113 | line j is the resolution of the j-th resolving relationship, in order, and every resolving relationship has its line |
| KnowledgeGraphViewer.DiagramLabelAsWritten | src/components/KnowledgeGraphViewer.jsx:119-141 | the truncated label as written fails exactly when the node has neither a truthy label nor an id |
| KnowledgeGraphViewer.UnlabelledNodeThrows | src/components/KnowledgeGraphViewer.jsx:139-141 | a node with neither `label` nor `id` makes the panel throw |
| KnowledgeGraphViewer.DiagramLabel | src/components/KnowledgeGraphViewer.jsx:119-141 | labels of up to 10 characters are unchanged; longer ones become 10 characters plus "..."; agrees with the code wherever that does not throw |
| KnowledgeGraphViewer.FillAsWritten | src/components/KnowledgeGraphViewer.jsx:118 | a prototype member is returned exactly for the types "constructor" and "__proto__"; otherwise the table colour |
| KnowledgeGraphViewer.ConstructorTypeMissesFallback | src/components/KnowledgeGraphViewer.jsx:36-43 | type "Constructor" reaches `Object.prototype.constructor` instead of the `unknown` colour |
| KnowledgeGraphViewer.Legend | src/components/KnowledgeGraphViewer.jsx:74-83 | one entry per category in table order, with its colour; its title is the key with the first letter upper-cased and the rest unchanged |
| KnowledgeGraphViewer.EndpointText | src/components/KnowledgeGraphViewer.jsx:190-199 | the first matching node's label when truthy; the raw id when no node matches or the matching node's label is falsy |
| KnowledgeGraphViewer.RelItemOf | src/components/KnowledgeGraphViewer.jsx:189-204 | "(type)" is shown exactly when the relationship's type is truthy |
| KnowledgeGraphViewer.View | src/components/KnowledgeGraphViewer.jsx:66-211 | empty state iff no nodes; raw node and relationship counts; drawn edges ≤ count; one circle and list item per node; relationship list iff any; six legend entries |
| KnowledgeGraphViewer.MissingNodesShowEmptyState | src/components/KnowledgeGraphViewer.jsx:33-34 | a `null` snapshot or a missing or empty `nodes` shows the empty state, never a failure |
| KnowledgeGraphAgent.DropLeadingFence | agents/knowledge_graph_agent.py:53 | one leading "```json" (7 characters) or else "```" (3) is removed; nothing else is touched |
| KnowledgeGraphAgent.DropTrailingFence | agents/knowledge_graph_agent.py:54 | one trailing "```" is removed; nothing else is touched |
| KnowledgeGraphAgent.UnfencedJsonBlock | agents/knowledge_graph_agent.py:49-55 | a "```json" fenced text comes out as its stripped inner text |
| KnowledgeGraphAgent.Inner | agents/knowledge_graph_agent.py:60 | `raw[1:-1]`: the text without its first and last character, empty for shorter text |
| KnowledgeGraphAgent.UnquoteOnce | agents/knowledge_graph_agent.py:59-60 | text not enclosed in double quotes is left unchanged |
| KnowledgeGraphAgent.QuotesUnescaped | agents/knowledge_graph_agent.py:60 | the first replacement turns every escaped quote `\"` back into `"` and touches nothing else |
| KnowledgeGraphAgent.NewlinesUnescaped | agents/knowledge_graph_agent.py:60 | the second replacement turns every escaped newline `\n` back into a newline |
| KnowledgeGraphAgent.UnquoteEscaped | agents/knowledge_graph_agent.py:59-60 | one pass undoes one layer of quoting with its escapes: quoting the escaped form of a backslash-free, unpadded text gives the text back |
| KnowledgeGraphAgent.UnquoteQuoted | agents/knowledge_graph_agent.py:59-60 | one pass undoes one layer of quotes around backslash-free stripped text |
| KnowledgeGraphAgent.TwoPasses | agents/knowledge_graph_agent.py:58 | the loop runs exactly two passes |
| KnowledgeGraphAgent.TwoLayersRemoved | agents/knowledge_graph_agent.py:58-60 | two layers of quotes are removed |
| KnowledgeGraphAgent.ThirdLayerKept | agents/knowledge_graph_agent.py:58-60 | a third layer of quotes stays in place |
| KnowledgeGraphAgent.UnquotedStays | agents/knowledge_graph_agent.py:59 | text that is not quoted passes both passes unchanged |
| KnowledgeGraphAgent.ObjectTextIsStripped | agents/knowledge_graph_agent.py:63 | text between braces has nothing for `strip()` or the junk trim to remove |
| KnowledgeGraphAgent.JsonWindow | agents/knowledge_graph_agent.py:66-69 | a window exists iff some `{` precedes some `}`; it runs from the first `{` to the last `}` |
| KnowledgeGraphAgent.WholeWindow | agents/knowledge_graph_agent.py:66-69 | an object literal is its own window |
| KnowledgeGraphAgent.UnfencedObject | agents/knowledge_graph_agent.py:52-55 | a fenced object literal is unfenced to exactly the literal |
| KnowledgeGraphAgent.FencedObjectReachesDecoder | agents/knowledge_graph_agent.py:49-69 | a fenced object literal survives all cleaning and is its own window |
| KnowledgeGraphAgent.FencedReplyDecodesInner | agents/knowledge_graph_agent.py:49-71 | a fenced reply decodes exactly as its inner object literal |
| KnowledgeGraphAgent.NormalizeNode | agents/knowledge_graph_agent.py:79-81 | `id`, `type` and `label` present and stripped; other fields kept |
| KnowledgeGraphAgent.NormalizedIdSource | agents/knowledge_graph_agent.py:79 | `id` from `id`, else from `label`, else "unknown_id", stripped |
| KnowledgeGraphAgent.NormalizedTypeSource | agents/knowledge_graph_agent.py:80 | `type` from `type`, else "unknown", stripped |
| KnowledgeGraphAgent.NormalizedLabelSource | agents/knowledge_graph_agent.py:81 | `label` from `label` (stripped), else the new `id` |
| KnowledgeGraphAgent.NormalizeIdempotent | agents/knowledge_graph_agent.py:78-81 | normalising twice is normalising once |
| KnowledgeGraphAgent.NormalizeAll | agents/knowledge_graph_agent.py:78-81 | same number of nodes, in order, each normalised |
| KnowledgeGraphAgent.CleanText | agents/knowledge_graph_agent.py:49-63 | the step-by-step rewrites of `raw` compute the cleaned text |
| KnowledgeGraphAgent.NormalizeNodes | agents/knowledge_graph_agent.py:78-81 | the in-place loop fixes every node, in order |
| KnowledgeGraphAgent.GenerateKnowledgeGraph | agents/knowledge_graph_agent.py:36-100 | never fails; the result is the specified document and always well formed |
| KnowledgeGraphAgent.ErrorGraphWellFormed | agents/knowledge_graph_agent.py:96-100 | the error graph has one normalised node and empty relationships |
| KnowledgeGraphAgent.FinishWellFormed | agents/knowledge_graph_agent.py:73-92 | every outcome has nodes and relationships, each node normalised |
| KnowledgeGraphAgent.FailuresGiveErrorGraph | agents/knowledge_graph_agent.py:94-100 | falsy input, a failed decode and a missing `nodes` key each give the "Parsing failed" graph with their own message |
| KnowledgeGraphAgent.DecodeFailures | agents/knowledge_graph_agent.py:66-71 | no `{`…`}` pair gives "No valid JSON object found."; a decoder error gives that error |
| KnowledgeGraphAgent.DictIgnoresDecoder | agents/knowledge_graph_agent.py:46-47 | a decoded object skips text cleaning: the decoder plays no part |
| KnowledgeGraphAgent.FinishKeepsDocument | agents/knowledge_graph_agent.py:78-85 | on success: node count and order kept, each normalised; relationships kept, or `[]` only when absent; other keys unchanged |
| KnowledgeGraphAgent.RunKnowledgeGraph | agents/knowledge_graph_agent.py:105-116 | an agent failure gives the "Agent failed" graph; otherwise the response goes to the cleaner; the result is always well formed |
| MCPEngine.CallGemini | crews/mcp_engine.py:14-22 | never raises: the stripped text, "" for no response, or "[Error calling Gemini: …]" |
| MCPEngine.BraceFreeFormatsToItself | crews/mcp_engine.py:36 | a template without braces formats to itself |
| MCPEngine.PlainPrefix | crews/mcp_engine.py:36 | text before the first brace is copied through unchanged, whatever follows |
| MCPEngine.FormatSubstitutes | crews/mcp_engine.py:36 | one `{context}` field is replaced by the context |
| MCPEngine.ContextField | crews/mcp_engine.py:36 | a leading `{context}` field is replaced by the context |
| MCPEngine.AgentRun | crews/mcp_engine.py:34-39 | fails exactly when formatting fails, with its error; otherwise labelled with the agent's name |
| MCPEngine.Agent.constructor | crews/mcp_engine.py:29-32 | the fields are the arguments |
| MCPEngine.Agent.Run | crews/mcp_engine.py:34-39 | formats, calls the model once and returns `{agent, response}` |
| MCPEngine.Orchestrator.constructor | crews/mcp_engine.py:46-47 | the agent list is the argument |
| MCPEngine.Orchestrator.RunPipeline | crews/mcp_engine.py:49-67 | the loop result equals the specified pipeline: a failure propagates; otherwise the results map of names to responses |
| MCPEngine.PipelineFailsFrom | crews/mcp_engine.py:57-64 | once an agent fails, no later agent runs and the run fails with that error |
| MCPEngine.ContextIsAccumulated | crews/mcp_engine.py:54-64 | one response per agent; the final context is `str(patient_data)` followed by one section per agent, in order |
| MCPEngine.AgentSeesEarlierOutputs | crews/mcp_engine.py:59-64 | agent k is prompted with exactly the patient data and the outputs of agents 0..k-1, in order |
| MCPEngine.ResultKeysAreNames | crews/mcp_engine.py:61 | the result keys are exactly the agent names |
| MCPEngine.LastDuplicateWins | crews/mcp_engine.py:61 | with repeated names the last agent's response is kept |
| MCPEngine.WellFormedTemplatesNeverFail | crews/mcp_engine.py:57-61 | when every template formats, the pipeline succeeds |
| VisualizerLayout.Members | utils/__pycache__/knowledge_graph_visualizer.py:67-71 | a group holds at most all the nodes |
| VisualizerLayout.MembersAreNodes | utils/__pycache__/knowledge_graph_visualizer.py:71 | every group member is one of the nodes |
| VisualizerLayout.MembersOfAbsentKey | utils/__pycache__/knowledge_graph_visualizer.py:69-70 | a type no node has has no group members |
| VisualizerLayout.GroupByType | utils/__pycache__/knowledge_graph_visualizer.py:66-71 | groups keyed by type (default 'default') in first-seen order, each holding its nodes in input order |
| VisualizerLayout.FlatPartition | utils/__pycache__/knowledge_graph_visualizer.py:66-71 | concatenating the groups of distinct covering keys is a permutation of the nodes |
| VisualizerLayout.EveryNodeInOneGroup | utils/__pycache__/knowledge_graph_visualizer.py:66-71 | every node is in exactly one group |
| VisualizerLayout.Slots | utils/__pycache__/knowledge_graph_visualizer.py:81-86 | one visit per group member, in order, with its rank in the group |
| VisualizerLayout.VisitsAreGroups | utils/__pycache__/knowledge_graph_visualizer.py:78-81 | the layout visits the groups' nodes, group after group |
| VisualizerLayout.PlaceGroup | utils/__pycache__/knowledge_graph_visualizer.py:81-86 | the inner loop records every member's slot, or fails at a node without an id |
| VisualizerLayout.CalculateLayout | utils/__pycache__/knowledge_graph_visualizer.py:57-88 | the loops compute the specified position map |
| VisualizerLayout.PlaceGroups | utils/__pycache__/knowledge_graph_visualizer.py:78-86 | the outer loop over groups fails exactly as the layout does, and otherwise every visit had an id |
| VisualizerLayout.LayoutOfUnidentified | utils/__pycache__/knowledge_graph_visualizer.py:85 | a node without an id makes the layout fail |
| VisualizerLayout.LayoutOfIdentified | utils/__pycache__/knowledge_graph_visualizer.py:78-88 | with every id present, the layout places every visit in order |
| VisualizerLayout.VisitsAreAllNodes | utils/__pycache__/knowledge_graph_visualizer.py:78-86 | the layout visits every node exactly once |
| VisualizerLayout.LastVisitWins | utils/__pycache__/knowledge_graph_visualizer.py:85 | with duplicate ids, the last visit's slot is kept |
| VisualizerLayout.PositionKeys | utils/__pycache__/knowledge_graph_visualizer.py:85 | the positioned ids are exactly the ids visited |
| KnowledgeGraphVisualizer.Decode | utils/__pycache__/knowledge_graph_visualizer.py:41-45 | the decoded value, or the fallback graph with the decoder's complaint |
| KnowledgeGraphVisualizer.ParseKnowledgeGraph | utils/__pycache__/knowledge_graph_visualizer.py:31-45 | text is stripped, de-fenced and decoded; a missing or decoded payload fails at `strip()` |
| KnowledgeGraphVisualizer.TextAlwaysYieldsAValue | utils/__pycache__/knowledge_graph_visualizer.py:43-45 | text always gives a value; a decode failure gives an object |
| KnowledgeGraphVisualizer.FencedTextDecodesInner | utils/__pycache__/knowledge_graph_visualizer.py:35-41 | a fenced block decodes exactly as its inner text |
| KnowledgeGraphVisualizer.FallbackLaysOut | utils/__pycache__/knowledge_graph_visualizer.py:47-55 | the fallback graph always lays out and draws |
| KnowledgeGraphVisualizer.KeptEdges | utils/__pycache__/knowledge_graph_visualizer.py:114-118 | kept edges have both ends positioned; all are kept exactly when every one does |
| KnowledgeGraphVisualizer.KeptEdgesSelect | utils/__pycache__/knowledge_graph_visualizer.py:114-118 | kept edge j is the j-th relationship with both ends positioned, in order, and every such relationship is kept |
| KnowledgeGraphVisualizer.KeptEdgesMembers | utils/__pycache__/knowledge_graph_visualizer.py:114-118 | a relationship is kept if and only if it is in the input with both ends positioned |
| KnowledgeGraphVisualizer.EdgeInfos | utils/__pycache__/knowledge_graph_visualizer.py:126-132 | one hover record per kept edge |
| KnowledgeGraphVisualizer.EdgePoints | utils/__pycache__/knowledge_graph_visualizer.py:119-123 | three points per kept edge |
| KnowledgeGraphVisualizer.EdgePointsAt | utils/__pycache__/knowledge_graph_visualizer.py:122-123 | edge k contributes its source position, its target position and a break |
| KnowledgeGraphVisualizer.CollectEdges | utils/__pycache__/knowledge_graph_visualizer.py:110-132 | the loop yields the specified points and hover records of the kept edges |
| KnowledgeGraphVisualizer.TraceKey | utils/__pycache__/knowledge_graph_visualizer.py:168-171 | the node's own type if it is a colour key (case-sensitive), else 'default' |
| KnowledgeGraphVisualizer.FillTraces | utils/__pycache__/knowledge_graph_visualizer.py:144-176 | one trace per colour key, each holding the markers of its positioned nodes |
| KnowledgeGraphVisualizer.Traces | utils/__pycache__/knowledge_graph_visualizer.py:179 | only traces with markers are kept |
| KnowledgeGraphVisualizer.NonEmptyTraces | utils/__pycache__/knowledge_graph_visualizer.py:179 | the filtering loop keeps the non-empty traces in key order |
| KnowledgeGraphVisualizer.CreatePlotlyVisualization | utils/__pycache__/knowledge_graph_visualizer.py:90-204 | the figure method computes the specified figure |
| KnowledgeGraphVisualizer.LayoutPlacesEveryNode | utils/__pycache__/knowledge_graph_visualizer.py:163-165 | after a layout every node has an id with a position, so none is skipped |
| KnowledgeGraphVisualizer.DrawnKeys | utils/__pycache__/knowledge_graph_visualizer.py:163-171 | one trace key per positioned node |
| KnowledgeGraphVisualizer.MarkersCounted | utils/__pycache__/knowledge_graph_visualizer.py:173-176 | a trace holds one marker per node bucketed to it |
| KnowledgeGraphVisualizer.TracesCountMarkers | utils/__pycache__/knowledge_graph_visualizer.py:163-179 | the traces' markers add up to the bucketed nodes |
| KnowledgeGraphVisualizer.EveryNodeDrawnOnce | utils/__pycache__/knowledge_graph_visualizer.py:163-179 | in a drawn figure every node is exactly one marker |
| KnowledgeGraphVisualizer.EdgesOfKnownNodes | utils/__pycache__/knowledge_graph_visualizer.py:114-123 | at most one edge per relationship, three points each, all kept when every endpoint is positioned |
| KnowledgeGraphVisualizer.ReasoningCell | utils/__pycache__/knowledge_graph_visualizer.py:243 | reasoning over 100 characters becomes 100 plus "..."; otherwise raw, or "" when absent |
| KnowledgeGraphVisualizer.RelationshipRows | utils/__pycache__/knowledge_graph_visualizer.py:236-244 | the loop builds one row per relationship, in order |
| KnowledgeGraphVisualizer.TableAgreesWithHover | utils/__pycache__/knowledge_graph_visualizer.py:238-242 | table rows and hover records agree on type, confidence and given endpoints, with different defaults for absent ones |
| KnowledgeGraphVisualizer.StepLinesWith | utils/__pycache__/knowledge_graph_visualizer.py:223-227 | one line per step |
| KnowledgeGraphVisualizer.StepsAreLinked | utils/__pycache__/knowledge_graph_visualizer.py:223-227 | step j is numbered j+1 and points to step j+1 with "→"; the last is marked "(Final conclusion)" |
| KnowledgeGraphVisualizer.ArrowIsGarbled | utils/__pycache__/knowledge_graph_visualizer.py:225 | as written, the arrow is the three characters "â†’", not "→" |
| KnowledgeGraphVisualizer.DisplayReasoningPaths | utils/__pycache__/knowledge_graph_visualizer.py:206-227 | the loop builds one panel per path, numbered from 1 |
| KnowledgeGraphVisualizer.PanelShowsEveryStep | utils/__pycache__/knowledge_graph_visualizer.py:220-227 | a path with steps shows a heading and one line per step; none otherwise |
| KnowledgeGraphVisualizer.SummaryKeys | utils/__pycache__/knowledge_graph_visualizer.py:277 | one summary type per node, defaulting to 'unknown' |
| KnowledgeGraphVisualizer.MetricsOf | utils/__pycache__/knowledge_graph_visualizer.py:281-287 | one metric per type |
| KnowledgeGraphVisualizer.CountTypes | utils/__pycache__/knowledge_graph_visualizer.py:275-278 | the counting loop gives first-seen types, each mapped to its number of nodes |
| KnowledgeGraphVisualizer.NodeSummary | utils/__pycache__/knowledge_graph_visualizer.py:272-287 | the metrics in the dictionary's key order |
| KnowledgeGraphVisualizer.SummaryCountsEveryNode | utils/__pycache__/knowledge_graph_visualizer.py:275-278 | the per-type counts add up to the number of nodes |
| KnowledgeGraphVisualizer.RenderKnowledgeGraph | utils/__pycache__/knowledge_graph_visualizer.py:248-291 | the render method computes the specified outcome |
| KnowledgeGraphVisualizer.RenderObject | utils/__pycache__/knowledge_graph_visualizer.py:259-287 | the figure, panels, table and summary of a decoded document |
| KnowledgeGraphVisualizer.WarningIffNoData | utils/__pycache__/knowledge_graph_visualizer.py:250-252 | the warning shows exactly for a falsy payload or the sentinel text, which is never parsed |
| KnowledgeGraphVisualizer.StructuredPayloadFails | utils/__pycache__/knowledge_graph_visualizer.py:289-291 | a non-empty decoded object ends in the render error, since it has no `strip()` |
| KnowledgeGraphVisualizer.UndecodableTextRendersFallback | utils/__pycache__/knowledge_graph_visualizer.py:43-55 | undecodable text renders the fallback graph: the complaint, no panels, no table, one node counted |
| KnowledgeGraphVisualizer.FallbackRenders | utils/__pycache__/knowledge_graph_visualizer.py:47-55 | the fallback graph renders with no panels, no table and one node |
| StreamlitApp.NodeText | app.py:69 | the label, or exactly "Node " followed by the decimal index |
| StreamlitApp.NodeColour | app.py:70-74 | the table colour of the lower-cased type (default "unknown"), or the `unknown` colour |
| StreamlitApp.PositionKeys | app.py:75 | `id_to_pos` has a key exactly for each node's id (absent ids share one key) |
| StreamlitApp.LastOccurrenceWins | app.py:75 | each id maps to its last node's slot |
| StreamlitApp.PlaceNodes | app.py:66-75 | the loop fills one slot, text and colour per node, and the specified `id_to_pos` |
| StreamlitApp.EdgeTrace | app.py:79-85 | three entries per joined edge with `None` exactly every third; all kept iff every edge joins; every point is a node position |
| StreamlitApp.EdgeTraceSelect | app.py:79-85 | the trace has three entries per joined relationship, and triple j is the two end positions of the j-th joined relationship followed by `None`, with every joined relationship present |
| StreamlitApp.TraceEdges | app.py:78-85 | the loop extends the edge list as specified |
| StreamlitApp.Legend | app.py:126-134 | the six colours in table order, with title-cased names, in column i mod 3 |
| StreamlitApp.TitleOfLowerWord | app.py:132 | `title()` on a lower-case word capitalises its first letter only |
| StreamlitApp.LegendShowsEveryColour | app.py:128-134 | every colour a node can get is in the legend |
| StreamlitApp.LegendColoursDistinct | app.py:128-134 | no colour appears twice in the legend |
| StreamlitApp.LegendCaptions | app.py:129-132 | entry i shows the capitalised key of category i, in a column below 3 |
| StreamlitApp.ChartOf | app.py:46-139 | no chart iff there are no nodes; per-node lists as long as the node list; raw counts; six legend entries; at most three edge entries per relationship |
| StreamlitApp.DrawChart | app.py:46-139 | the drawing code computes the specified chart |
| StreamlitApp.Visualization | app.py:33-143 | never the no-data warning; a decoded object is charted directly; an error dumps the raw payload |
| StreamlitApp.CreateKnowledgeGraphVisualization | app.py:33-143 | the function computes the specified visualisation |
| StreamlitApp.GraphTab | app.py:220-224 | the warning shows exactly for a falsy value or the sentinel string |
| StreamlitApp.EdgesJoinDrawnNodes | app.py:81-85 | every edge point is the position of some drawn node |
| StreamlitApp.NamedEndsAreDrawn | app.py:79-85 | when every endpoint names a node, every relationship is drawn |
| StreamlitApp.AbsentEndsMeetIdlessNode | app.py:80-81 | a relationship without source and target joins when some node has no id |
| StreamlitApp.DecodedGraphIsDrawn | app.py:43-44 | a decoded object with nodes is drawn with its node count |
| StreamlitApp.FencedTextDrawsInner | app.py:36-42 | a fenced text graph is drawn from exactly its inner text |
| StreamlitApp.LinkOfShape | app.py:322 | the link holds no space and ends the stripped line |
| StreamlitApp.LinksIn | app.py:320-323 | at most one link per line |
| StreamlitApp.LinksInSelect | app.py:320-323 | link j is the link of the j-th line mentioning the docs host, in line order, and there are exactly as many links as such lines |
| StreamlitApp.DocLinesGiveLinks | app.py:320-323 | every line mentioning the docs host has its link shown |
| StreamlitApp.ExtractReportLinks | app.py:318-323 | the loop collects the specified links |
| StreamlitApp.LinksFollowDocLines | app.py:320-322 | each link comes from a line mentioning the docs host |
| StreamlitApp.LinkAfterLastSpace | app.py:322 | a line ending in a space and a white-space-free URL yields that URL |
| StreamlitApp.SubmitBooking | app.py:271-297 | no form without a calendar; the report document is requested iff the calendar is connected and the attachment is allowed, also on a clash; a warning iff the interval clashes, with the clash count; a booking lasts one of the offered durations (30 to 90 minutes), carries the report link only when the attachment is allowed, and exists iff there is no clash and the event is created |
| StreamlitApp.FormAgreesWithApi | app.py:271-297 | for the same inputs the form and `POST /api/appointments` request the report document alike and warn, book and fail alike, with the same count, event and link |
| Appointments.UrlRun | src/pages/ViewAppointments.jsx:83 | the longest run of URL characters at the start (the greedy `+`) |
| Appointments.FirstMatch | src/pages/ViewAppointments.jsx:82-84 | the leftmost match position, with no match before it; `None` when there is none |
| Appointments.ExtractDocUrl | src/pages/ViewAppointments.jsx:80-86 | `null` for falsy text; a match starts with the docs prefix followed by URL characters; `null` only when nothing matches |
| Appointments.ExtractDocUrlIsLeftmostLongest | src/pages/ViewAppointments.jsx:82-85 | the URL is the leftmost match, extended as far as URL characters go |
| Appointments.WrittenLinkIsExtracted | src/pages/LandingPage.jsx:45-51 | a docs link written into a description is extracted exactly |
| Appointments.DateSource | src/pages/ViewAppointments.jsx:38-50 | no date gives nothing; a string is used directly; `dateTime` takes precedence over `date` |
| Appointments.FormatDate | src/pages/ViewAppointments.jsx:37-64 | "Invalid Date" when there is nothing to parse |
| Appointments.DateTimeTakesPrecedence | src/pages/LandingPage.jsx:26-29 | an object with `dateTime` formats as that string would |
| Appointments.EmptyDateObjectIsInvalid | src/pages/LandingPage.jsx:32-33 | an object with neither field is "Invalid Date" |
| Appointments.Title | src/pages/LandingPage.jsx:255 | the summary if truthy, else "Untitled Appointment" |
| Appointments.EndTime | backend-api-example.py:128 | the end is the start plus the duration, and is later for a positive duration |
| ViewAppointments.Loaded | src/pages/ViewAppointments.jsx:17-31 | a `null` result gives `[]`; data is kept; a failed fetch gives the one demo appointment |
| ViewAppointments.DocUrlOf | src/pages/ViewAppointments.jsx:117-118 | the URL in the description takes precedence over the `docUrl` field |
| ViewAppointments.ShowLine | src/pages/ViewAppointments.jsx:143-177 | detail lines verbatim; report lines as the link, or the line without its first clipboard tag, trimmed; all others dropped |
| ViewAppointments.Lines | src/pages/ViewAppointments.jsx:140-142 | nothing for a falsy description, otherwise one classified entry per line |
| ViewAppointments.CardOf | src/pages/ViewAppointments.jsx:120-139 | numbered from 1; the title; a delete button exactly for a truthy id; the formatted date; the classified lines |
| ViewAppointments.PageOf | src/pages/ViewAppointments.jsx:105-116 | the empty state iff no appointments, otherwise one card per appointment in order |
| ViewAppointments.FailedLoadShowsDemoCard | src/pages/ViewAppointments.jsx:22-31 | a failed load shows one deletable card, number 1, with the demo title |
| LandingPage.Upcoming | src/pages/LandingPage.jsx:13-18 | the first three appointments at most, in order; `[]` for `null` or a failed load |
| LandingPage.ShowLine | src/pages/LandingPage.jsx:262-291 | detail lines verbatim; report lines only with a URL, shown truncated to 40 characters; all others dropped |
| LandingPage.Lines | src/pages/LandingPage.jsx:260-262 | nothing for a falsy description, otherwise one classified entry per line |
| LandingPage.CardOf | src/pages/LandingPage.jsx:246-259 | numbered from 1, titled, no delete button, the formatted date, the classified lines |
| LandingPage.Cards | src/pages/LandingPage.jsx:241-243 | one card per upcoming appointment, at most three |
| LandingPage.PagesAgreeOnLines | src/pages/LandingPage.jsx:269 | both pages show detail lines verbatim; a report line without a URL is dropped here but shown as text on the appointments page |
| LandingPage.ShortLinkKeepsStart | src/pages/LandingPage.jsx:279-281 | a URL of up to 40 characters is shown whole; a longer one becomes its first 40 plus "..." |
| BackendApi.OfSpecialty | backend-api-example.py:95 | exactly the doctors whose specialty matches case-insensitively |
| BackendApi.OfSpecialtyKeepsOrder | backend-api-example.py:95 | the filter keeps the original order |
| BackendApi.GetDoctors | backend-api-example.py:92-98 | all doctors for no specialty or exactly 'all', otherwise the case-insensitive filter |
| BackendApi.AllIsCaseSensitive | backend-api-example.py:94 | "All" is not 'all': it filters, and finds no one |
| BackendApi.FirstWithId | backend-api-example.py:104 | the first doctor with the id; `None` exactly when no doctor has it |
| BackendApi.GetDoctor | backend-api-example.py:104-107 | the first doctor with the id, or 404 exactly when there is none |
| BackendApi.Diagnose | backend-api-example.py:62-86 | 400 iff the symptoms are falsy; 500 on a crew error; 200 iff the body has no "error", and then it is the crew's results |
| BackendApi.EmptySymptomsNeverReachCrew | backend-api-example.py:74-79 | with empty symptoms the crew plays no part |
| BackendApi.BookAppointment | backend-api-example.py:110-200 | 400 iff a field is missing; a parse failure and a disconnected calendar give 500; otherwise a document is requested iff asked for and possible, 409 iff the interval clashes (with the count), the booking (duration default 60) is made iff the event is created, and 500 when creation returns nothing |
| BackendApi.ValidationPrecedesServices | backend-api-example.py:123-124 | a request with missing fields gets 400 before any parsing or Google call |
| BackendApi.ClashCreatesNoEvent | backend-api-example.py:172-178 | a clash gives 409 whatever event creation would do, and the report document is still attempted first |

## Left out

- JSON decoding (`JSON.parse`, `json.loads`) is a parameter. The model
  assumes nothing about it beyond success or an error message.
- Non-string field values are not modelled. Node and relationship fields are
  text or absent; numbers, lists and `null` inside a graph are not. An explicit
  `null` is treated as absent. So the `TypeError` that `"nodes": null` raises at
  `len(nodes)` in `app.py`, and the one `"relationships": null` raises in both
  `app.py` and the visualiser's edge loop when there are nodes, are not
  modelled. In the visualiser, `"nodes": null` is falsy and gives the empty
  figure, as an absent list does.
- Payloads are absent, text, or a decoded object. Arrays and numbers are not
  modelled as payloads.
- Node positions are index slots `(i, n)`. The `cos`/`sin` geometry and radii
  of all three layouts are floating-point and left out.
- In the Python visualiser, "later wins" for duplicate ids follows the group
  iteration order. That is the order the source writes positions in, not the
  input order.
- Letter case is mapped for ASCII only, so `lower()`, `toLowerCase()` and
  `title()` on other scripts are not modelled.
- Streamlit, Plotly and React output are not modelled: `st.*` calls, figure
  styling, hover templates, markup, CSS, error-message wording. Only what
  each view contains is modelled.
- The React state setters, the loading flag and effect scheduling are not
  modelled.
- `handleDelete` (confirmation, delete call, reload) is network I/O and is
  left out.
- `list_appointments` and `delete_appointment` in the back end are network
  calls with no logic of their own.
- The Google Calendar, Docs and OAuth calls are parameters of the booking
  model: connectivity, the conflict count, document creation and event
  creation.
- BackendApi.BookAppointment: the Google helpers are total. If one of them
  raised, the handler's outer `except Exception` would answer 500 with the
  exception's message; that path is not modelled. Times are unbounded
  minutes: an end time past `datetime`'s range (after the year 9999), for
  which `start_dt + timedelta(...)` raises `OverflowError` and the handler
  answers 500, is booked by the model instead.
- StreamlitApp.SubmitBooking: the same holds for the form; an end time past
  `datetime`'s range raises in the page instead of booking.
- KnowledgeGraphViewer.View and KnowledgeGraphViewer.Panel.Render draw the
  corrected node labels and fills (`DiagramLabel`, `ColorOfType`). The code
  as written throws for a node with neither `label` nor `id`, and gives a
  type such as "constructor" an `Object.prototype` member as its fill; those
  as-written behaviours are stated only by `DiagramLabelAsWritten` and
  `FillAsWritten` (see Findings), not by the composite views.
- KnowledgeGraphVisualizer.DisplayReasoningPaths and
  KnowledgeGraphVisualizer.RenderKnowledgeGraph build the step lines with
  the intended arrow "→". The code prints the garbled literal "â†’"; that
  is stated only by `ArrowIsGarbled` (see Findings).
- JavaScript `length` and `substring` count UTF-16 code units. The model
  counts characters, so the 10-character cut of diagram labels and the
  40-character cut of report links agree with the browser only for text
  without characters outside the Basic Multilingual Plane.
- The Gemini call is a parameter (`Model`). Only the wrapper's handling of its
  outcome is modelled.
- Date parsing and locale formatting are parameters. Only the dispatch on the
  shape of `start` is modelled.
- `request.json` being `None`, and `int(duration)` failing on a non-integer,
  are not modelled.
- The diagnosis report text, the session-state updates and the symptoms
  check in `app.py` are not modelled. Only the gating of the report
  attachment is modelled (`StreamlitApp.AttemptsReportDoc`).
- The booking form's widgets are its parameters; the duration is one of the
  offered values. Clearing the stored report after a booking is not modelled.
- `str(patient_data)` is taken as given text. Python's dict repr is not
  modelled.
- `str.format` is modelled for `{context}`, `{{` and `}}`. Any other field
  is an error, which the pipeline propagates; format specifications are not
  modelled.
- MCPEngine.Format: conversions and indexing are not modelled. Python
  accepts `{context!r}`, `{context[0]}` and `{context.attr}` when the value
  allows it; the model reports them as errors. An empty field `{}` raises
  `IndexError` in Python, not `KeyError`; the model reports it as an error
  naming the empty field.
- KnowledgeGraphAgent: a dictionary reply is normalised in place in Python,
  so the caller's dictionary is changed too. The model returns a new value
  and does not capture that aliasing.
- KnowledgeGraphAgent.DecodeWindow: the JSON decoder is a parameter. Python's
  `json.loads` on a window that starts with `{` can only return an object,
  so the "parsed value is not an object" error is unreachable with it; the
  model keeps that branch only for a decoder that returns another value.
- The "No reasoning provided" default of the hover record never reaches the
  screen, because the edge trace has hover turned off. It is kept in the
  record without a contract about display.
- The agent prompt constants, `crews/medical_crew.py`, `main.py`, the other
  React pages and `src/services/api.js` are not part of this model.

## Findings

| source | as written | input that shows it | evidently intended | confidence | as-written member | corrected member |
|---|---|---|---|---|---|---|
| src/components/KnowledgeGraphViewer.jsx:139 | `label.length` is read from the label, which falls back to the id | a node with neither `label` nor `id`, such as `{"type": "symptom"}` | an empty or placeholder label, as for other missing fields | high; not executed | KnowledgeGraphViewer.UnlabelledNodeThrows | KnowledgeGraphViewer.DiagramLabel |
| src/components/KnowledgeGraphViewer.jsx:118 | `colorMap[nodeType]` looks the type up on a plain object before falling back to `unknown` | a node of type "Constructor" or "__proto__" gets an `Object.prototype` member as its fill | the `unknown` colour for every type outside the table | high; not executed | KnowledgeGraphViewer.ConstructorTypeMissesFallback | KnowledgeGraphViewer.ColorOfType |
| utils/__pycache__/knowledge_graph_visualizer.py:225 | the arrow literal is "â†’", the UTF-8 bytes of "→" decoded as Windows-1252 | a reasoning path `["A", "B"]` prints "1. A â†’ B" | "1. A → B" | high; not executed | KnowledgeGraphVisualizer.ArrowIsGarbled | KnowledgeGraphVisualizer.StepsAreLinked |
