/** The knowledge-graph record as every ingestion path sees it after JSON
    decoding, the payload shapes it arrives in, the code-fence strip shared
    by the three visualisers, and the six-entry category colour table. */
module GraphModel {
  import opened Common

  /** A node object; each field is a string or absent: `id`, `caption` (the
      "label" key, a reserved word in Dafny) and `kind` (the "type" key).
      `others` names the further keys the object carries. */
  datatype Node = Node(id: Option<string>, caption: Option<string>, kind: Option<string>, others: set<string>)

  datatype Relationship = Relationship(
    source: Option<string>,
    target: Option<string>,
    kind: Option<string>,
    confidence: Option<string>,
    reasoning: Option<string>)

  datatype ReasoningPath = ReasoningPath(steps: Option<seq<string>>, confidence: Option<string>, logic: Option<string>)

  /** A graph document: the keys "nodes", "relationships", "reasoning_paths"
      and "error" when present, and the names of any other keys. */
  datatype Doc = Doc(
    nodes: Option<seq<Node>>,
    relationships: Option<seq<Relationship>>,
    reasoningPaths: Option<seq<ReasoningPath>>,
    error: Option<string>,
    others: set<string>)

  /** What a JSON decoder yields: `null`, an object, or any other value
      (array, string, number, boolean). */
  datatype Json = Null | Object(doc: Doc) | Other

  /** `JSON.parse` / `json.loads`: a library call that may fail with a
      message. */
  type Parser = string -> Result<Json, string>

  /** The `knowledge_graph` value handed to a visualiser: nothing, text, or
      an already decoded object. */
  datatype Payload = Missing | Text(text: string) | Structured(doc: Doc)

  /** Python truthiness of a document: `{}` is false. */
  predicate IsEmptyDict(d: Doc) {
    d.nodes.None? && d.relationships.None? && d.reasoningPaths.None? && d.error.None? && d.others == {}
  }

  function NodesOr(d: Doc): seq<Node> {
    d.nodes.GetOr([])
  }

  function RelationshipsOr(d: Doc): seq<Relationship> {
    d.relationships.GetOr([])
  }

  // ---------------------------------------------------------------------
  // Code fences
  // ---------------------------------------------------------------------

  const JsonFence: string := "```json"
  const Fence: string := "```"

  /** On already trimmed text: drop exactly seven characters when it starts
      with "```json", then exactly three when what is left ends with "```".
      Only the two ends are touched; unfenced text is returned as it is. */
  function StripFence(t: string): (r: string)
    ensures exists a :: OccursAt(t, r, a)
    ensures StartsWith(t, JsonFence) ==> StartsWith(t[|JsonFence|..], r)
    ensures !StartsWith(t, JsonFence) ==> StartsWith(t, r)
    ensures |t| - |r| == (if StartsWith(t, JsonFence) then 7 else 0)
                        + (if EndsWith(t[if StartsWith(t, JsonFence) then 7 else 0..], Fence) then 3 else 0)
    ensures !StartsWith(t, JsonFence) && !EndsWith(t, Fence) ==> r == t
  {
    var a := if StartsWith(t, JsonFence) then t[7..] else t;
    var b := if EndsWith(a, Fence) then a[..|a| - 3] else a;
    assert OccursAt(t, b, |t| - |a|);
    b
  }

  /** Fencing any text and stripping the fence gives the text back. */
  lemma FenceRoundTrip(x: string)
    ensures StripFence(JsonFence + x + Fence) == x
  {
    var t := JsonFence + x + Fence;
    assert StartsWith(t, JsonFence);
    assert t[7..] == x + Fence;
    assert EndsWith(t[7..], Fence);
    assert (x + Fence)[..|x|] == x;
  }

  // ---------------------------------------------------------------------
  // Categories and their colours
  // ---------------------------------------------------------------------

  /** The keys of the colour table, in table order. */
  datatype Category = Symptom | Disease | Treatment | Outcome | Error | Unknown

  const Categories: seq<Category> := [Symptom, Disease, Treatment, Outcome, Error, Unknown]

  function Key(c: Category): (k: string)
    ensures k != [] && 'a' <= k[0] <= 'z'
  {
    match c
    case Symptom => "symptom"
    case Disease => "disease"
    case Treatment => "treatment"
    case Outcome => "outcome"
    case Error => "error"
    case Unknown => "unknown"
  }

  function Hex(c: Category): string {
    match c
    case Symptom => "#e74c3c"
    case Disease => "#3498db"
    case Treatment => "#2ecc71"
    case Outcome => "#f39c12"
    case Error => "#7f8c8d"
    case Unknown => "#bdc3c7"
  }

  /** The lookup `colorMap[t] || colorMap.unknown` read as a closed
      enumeration: total, exact on the six keys, `Unknown` otherwise. */
  function CategoryOf(t: string): (c: Category)
    ensures Key(c) == t || (c == Unknown && forall k :: 0 <= k < |Categories| ==> Key(Categories[k]) != t)
  {
    if t == "symptom" then Symptom
    else if t == "disease" then Disease
    else if t == "treatment" then Treatment
    else if t == "outcome" then Outcome
    else if t == "error" then Error
    else Unknown
  }

  /** Distinct categories have distinct keys and distinct colours, so the
      colour of a node identifies its category. */
  lemma TableIsInjective(c: Category, d: Category)
    ensures Key(c) == Key(d) ==> c == d
    ensures Hex(c) == Hex(d) ==> c == d
  {
  }
}
