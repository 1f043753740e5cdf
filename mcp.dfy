/** The multi-agent engine: the Gemini call wrapper, an agent that fills its
    prompt template with a context, and the orchestrator that runs the
    agents in order while accumulating a shared context string. */
module MCPEngine {
  import opened Common

  // ---------------------------------------------------------------------
  // The model call
  // ---------------------------------------------------------------------

  /** What one `generate_content` call comes back with: no response (or
      one whose text is empty), a text, or a raised exception. */
  datatype GeminiReply = NoResponse | Response(text: string) | Raised(message: string)

  /** The language model, as an uninterpreted map from prompt to reply. */
  type Model = string -> GeminiReply

  const ErrorPrefix: string := "[Error calling Gemini: "

  /** `call_gemini`: never raises; yields the stripped text, the empty
      string when there is no text, or a bracketed error note. */
  function CallGemini(reply: GeminiReply): (r: string)
    ensures reply.Raised? ==> StartsWith(r, ErrorPrefix) && r[|ErrorPrefix|..] == reply.message + "]"
    ensures reply.NoResponse? ==> r == ""
    ensures reply.Response? ==> r == PyStrip(reply.text)
    ensures !reply.Raised? ==> Unpadded(r, IsPyWhitespace)
  {
    match reply
    case NoResponse => ""
    case Response(t) => if t != [] then PyStrip(t) else ""
    case Raised(m) =>
      ErrorPrefix + m + "]"
  }

  // ---------------------------------------------------------------------
  // Prompt templates
  // ---------------------------------------------------------------------

  const SingleOpen: string := "Single '{' encountered in format string"
  const SingleClose: string := "Single '}' encountered in format string"
  const Unclosed: string := "expected '}' before end of string"

  predicate BraceFree(s: string) {
    '{' !in s && '}' !in s
  }

  /** `template.format(context=ctx)`: `{context}` becomes `ctx`, doubled
      braces become single ones, any other field raises (a `KeyError`
      naming the field) and so does a lone brace. */
  function Format(t: string, ctx: string): Result<string, string>
    decreases |t|, 1
  {
    if t == [] then Ok([])
    else if t[0] == '{' then FormatField(t, ctx)
    else if t[0] == '}' then
      if |t| >= 2 && t[1] == '}' then Prepend("}", Format(t[2..], ctx))
      else Err(SingleClose)
    else Prepend([t[0]], Format(t[1..], ctx))
  }

  /** The rest of `Format` at an opening brace. */
  function FormatField(t: string, ctx: string): Result<string, string>
    requires t != [] && t[0] == '{'
    decreases |t|, 0
  {
    if |t| == 1 then Err(SingleOpen)
    else if t[1] == '{' then Prepend("{", Format(t[2..], ctx))
    else
      match FirstIndexOf(t[1..], '}')
      case None => Err(Unclosed)
      case Some(j) =>
        if t[1..j + 1] == "context" then Prepend(ctx, Format(t[j + 2..], ctx))
        else Err("'" + t[1..j + 1] + "'")
  }

  function Prepend(p: string, r: Result<string, string>): Result<string, string> {
    if r.Ok? then Ok(p + r.value) else r
  }

  /** A template with one `{context}` field and no other brace yields the
      text around the field with the context in between. */
  lemma FormatSubstitutes(a: string, b: string, ctx: string)
    requires BraceFree(a) && BraceFree(b)
    ensures Format(a + "{context}" + b, ctx) == Ok(a + ctx + b)
  {
    var tail := "{context}" + b;
    assert a + "{context}" + b == a + tail;
    ContextField(b, ctx);
    PlainPrefix(a, tail, ctx);
    assert a + (ctx + b) == a + ctx + b;
  }

  /** A template without braces formats to itself. */
  lemma BraceFreeFormatsToItself(t: string, ctx: string)
    requires BraceFree(t)
    ensures Format(t, ctx) == Ok(t)
  {
    PlainPrefix(t, [], ctx);
    assert t + [] == t;
  }

  /** A prefix without braces is copied through unchanged. */
  lemma {:induction false} PlainPrefix(p: string, rest: string, ctx: string)
    requires BraceFree(p)
    ensures Format(p + rest, ctx) == Prepend(p, Format(rest, ctx))
    decreases |p|
  {
    if p == [] {
      assert p + rest == rest;
      if Format(rest, ctx).Ok? {
        assert p + Format(rest, ctx).value == Format(rest, ctx).value;
      }
    } else {
      assert p + rest == [p[0]] + (p[1..] + rest);
      assert BraceFree(p[1..]);
      PlainPrefix(p[1..], rest, ctx);
      PlainCharStep(p[0], p[1..] + rest, ctx);
      if Format(rest, ctx).Ok? {
        assert [p[0]] + (p[1..] + Format(rest, ctx).value) == p + Format(rest, ctx).value;
      }
    }
  }

  /** A character that is not a brace is copied through. */
  lemma PlainCharStep(c: char, rest: string, ctx: string)
    requires c != '{' && c != '}'
    ensures Format([c] + rest, ctx) == Prepend([c], Format(rest, ctx))
  {
    assert ([c] + rest)[1..] == rest;
  }

  lemma ContextField(b: string, ctx: string)
    requires BraceFree(b)
    ensures Format("{context}" + b, ctx) == Ok(ctx + b)
  {
    var t := "{context}" + b;
    assert t[1..] == "context}" + b;
    assert FirstIndexOf(t[1..], '}') == Some(7) by {
      assert t[1..][7] == '}';
      assert t[1..][..7] == "context";
    }
    assert t[1..8] == "context";
    assert t[9..] == b;
    BraceFreeFormatsToItself(b, ctx);
    assert Format(t, ctx) == FormatField(t, ctx);
  }

  // ---------------------------------------------------------------------
  // Agents
  // ---------------------------------------------------------------------

  /** `{"agent": name, "response": text}` */
  datatype AgentOutput = AgentOutput(agent: string, response: string)

  /** One agent run: the filled template goes to the model; a template
      that does not format raises. */
  function AgentRun(name: string, template: string, context: string, model: Model): (r: Result<AgentOutput, string>)
    ensures r.Err? <==> Format(template, context).Err?
    ensures r.Err? ==> r.error == Format(template, context).error
    ensures r.Ok? ==> r.value.agent == name
                      && r.value.response == CallGemini(model(Format(template, context).value))
  {
    match Format(template, context)
    case Err(e) => Err(e)
    case Ok(prompt) => Ok(AgentOutput(name, CallGemini(model(prompt))))
  }

  class Agent {
    const name: string
    const role: string
    const template: string

    constructor(name: string, role: string, template: string)
      ensures this.name == name && this.role == role && this.template == template
    {
      this.name := name;
      this.role := role;
      this.template := template;
    }

    /** `MCPAgent.run`: format, call the model once, label the answer
        with the agent's name. */
    method Run(context: string, model: Model) returns (out: Result<AgentOutput, string>)
      ensures out == AgentRun(name, template, context, model)
      ensures out.Ok? ==> out.value.agent == name
    {
      var prompt := Format(template, context);
      if prompt.Err? {
        return Err(prompt.error);
      }
      var text := CallGemini(model(prompt.value));
      out := Ok(AgentOutput(name, text));
    }
  }

  // ---------------------------------------------------------------------
  // The orchestrator
  // ---------------------------------------------------------------------

  /** What each agent appends to the shared context. */
  function Section(name: string, response: string): string {
    "\n\n---\n" + name + " Output:\n" + response
  }

  function Names(agents: seq<Agent>): (r: seq<string>)
    ensures |r| == |agents|
    ensures forall k :: 0 <= k < |agents| ==> r[k] == agents[k].name
  {
    seq(|agents|, k requires 0 <= k < |agents| => agents[k].name)
  }

  /** The initial context followed by one section per agent, in order. */
  function Accumulate(initial: string, names: seq<string>, responses: seq<string>): string
    requires |names| == |responses|
    decreases |names|
  {
    if names == [] then initial
    else
      var n := |names| - 1;
      Accumulate(initial, names[..n], responses[..n]) + Section(names[n], responses[n])
  }

  /** The run of `agents` from `initial`: the final context and every
      response, or the first failure. */
  function Pipeline(agents: seq<Agent>, initial: string, model: Model): Result<(string, seq<string>), string>
    decreases |agents|
  {
    if agents == [] then Ok((initial, []))
    else
      var n := |agents| - 1;
      Step(Pipeline(agents[..n], initial, model), agents[n], model)
  }

  /** One turn of the loop: run `agent` on the context so far, append its
      section and record its response. */
  function Step(state: Result<(string, seq<string>), string>, agent: Agent, model: Model): Result<(string, seq<string>), string> {
    match state
    case Err(e) => Err(e)
    case Ok(st) =>
      match AgentRun(agent.name, agent.template, st.0, model)
      case Err(e) => Err(e)
      case Ok(o) => Ok((st.0 + Section(agent.name, o.response), st.1 + [o.response]))
  }

  /** `results[name] = response`, applied in order. */
  function Results(names: seq<string>, responses: seq<string>): map<string, string>
    requires |names| == |responses|
    decreases |names|
  {
    if names == [] then map[]
    else
      var n := |names| - 1;
      Results(names[..n], responses[..n])[names[n] := responses[n]]
  }

  class Orchestrator {
    const agents: seq<Agent>

    constructor(agents: seq<Agent>)
      ensures this.agents == agents
    {
      this.agents := agents;
    }

    /** `run_pipeline`: every agent once, in list order, each on the
        context built so far; an agent that raises aborts the run. */
    method RunPipeline(patientData: string, model: Model) returns (results: Result<map<string, string>, string>)
      ensures Pipeline(agents, patientData, model).Err? ==> results == Err(Pipeline(agents, patientData, model).error)
      ensures Pipeline(agents, patientData, model).Ok? ==>
                |Pipeline(agents, patientData, model).value.1| == |agents|
                && results == Ok(Results(Names(agents), Pipeline(agents, patientData, model).value.1))
    {
      var context := patientData;
      var responses: seq<string> := [];
      var acc: map<string, string> := map[];
      for i := 0 to |agents|
        invariant Pipeline(agents[..i], patientData, model) == Ok((context, responses))
        invariant |responses| == i
        invariant acc == Results(Names(agents)[..i], responses)
      {
        var output := agents[i].Run(context, model);
        PipelineSnoc(agents, i, patientData, model);
        if output.Err? {
          results := Err(output.error);
          PipelineFailsFrom(agents, i + 1, patientData, model);
          return;
        }
        var text := output.value.response;
        ResultsSnoc(Names(agents), responses, text, i);
        acc := acc[agents[i].name := text];
        context := context + Section(agents[i].name, text);
        responses := responses + [text];
      }
      assert agents[..|agents|] == agents;
      assert Names(agents)[..|agents|] == Names(agents);
      results := Ok(acc);
    }
  }

  lemma PipelineSnoc(agents: seq<Agent>, i: nat, initial: string, model: Model)
    requires i < |agents|
    ensures Pipeline(agents[..i + 1], initial, model) == Step(Pipeline(agents[..i], initial, model), agents[i], model)
  {
    assert agents[..i + 1][..i] == agents[..i];
  }

  lemma ResultsSnoc(names: seq<string>, responses: seq<string>, text: string, i: nat)
    requires i < |names| && |responses| == i
    ensures Results(names[..i + 1], responses + [text]) == Results(names[..i], responses)[names[i] := text]
  {
    assert names[..i + 1][..i] == names[..i];
    assert (responses + [text])[..i] == responses;
  }

  /** Once a prefix of the agents fails, the whole run fails with the same
      error. */
  lemma {:induction false} PipelineFailsFrom(agents: seq<Agent>, i: nat, initial: string, model: Model)
    requires i <= |agents|
    requires Pipeline(agents[..i], initial, model).Err?
    ensures Pipeline(agents, initial, model) == Pipeline(agents[..i], initial, model)
    decreases |agents| - i
  {
    if i < |agents| {
      assert agents[..i + 1][..i] == agents[..i];
      PipelineFailsFrom(agents, i + 1, initial, model);
    } else {
      assert agents[..i] == agents;
    }
  }

  /** The final context is the patient data followed by one section per
      agent, in list order, and there is one response per agent. */
  lemma {:induction false} ContextIsAccumulated(agents: seq<Agent>, initial: string, model: Model)
    requires Pipeline(agents, initial, model).Ok?
    ensures |Pipeline(agents, initial, model).value.1| == |agents|
    ensures Pipeline(agents, initial, model).value.0
            == Accumulate(initial, Names(agents), Pipeline(agents, initial, model).value.1)
    decreases |agents|
  {
    if agents != [] {
      var n := |agents| - 1;
      ContextIsAccumulated(agents[..n], initial, model);
      var rs := Pipeline(agents, initial, model).value.1;
      assert rs[..n] == Pipeline(agents[..n], initial, model).value.1;
      assert Names(agents)[..n] == Names(agents[..n]);
    }
  }

  /** The last agent runs on the context its predecessors built, and its
      response ends the list. */
  lemma LastAgentStep(agents: seq<Agent>, initial: string, model: Model)
    requires agents != [] && Pipeline(agents, initial, model).Ok?
    ensures Pipeline(agents[..|agents| - 1], initial, model).Ok?
    ensures var prev := Pipeline(agents[..|agents| - 1], initial, model).value;
            var out := AgentRun(agents[|agents| - 1].name, agents[|agents| - 1].template, prev.0, model);
            out.Ok? && Pipeline(agents, initial, model).value.1 == prev.1 + [out.value.response]
  {
  }

  /** Agent k is prompted with exactly the patient data and the outputs of
      agents 0..k-1, in order. */
  lemma AgentSeesEarlierOutputs(agents: seq<Agent>, initial: string, model: Model, k: nat)
    requires Pipeline(agents, initial, model).Ok?
    requires k < |agents|
    ensures |Pipeline(agents, initial, model).value.1| == |agents|
    ensures Format(agents[k].template,
                   Accumulate(initial, Names(agents)[..k], Pipeline(agents, initial, model).value.1[..k])).Ok?
    ensures Pipeline(agents, initial, model).value.1[k]
            == CallGemini(model(Format(agents[k].template,
                   Accumulate(initial, Names(agents)[..k], Pipeline(agents, initial, model).value.1[..k])).value))
    decreases |agents|, 1
  {
    ContextIsAccumulated(agents, initial, model);
    if k < |agents| - 1 {
      EarlierAgentSees(agents, initial, model, k);
    } else {
      LastAgentSees(agents, initial, model);
    }
  }

  /** An agent before the last sees what it saw in the shorter run. */
  lemma EarlierAgentSees(agents: seq<Agent>, initial: string, model: Model, k: nat)
    requires Pipeline(agents, initial, model).Ok?
    requires k < |agents| - 1
    ensures |Pipeline(agents, initial, model).value.1| == |agents|
    ensures Format(agents[k].template,
                   Accumulate(initial, Names(agents)[..k], Pipeline(agents, initial, model).value.1[..k])).Ok?
    ensures Pipeline(agents, initial, model).value.1[k]
            == CallGemini(model(Format(agents[k].template,
                   Accumulate(initial, Names(agents)[..k], Pipeline(agents, initial, model).value.1[..k])).value))
    decreases |agents|, 0
  {
    var n := |agents| - 1;
    var rs := Pipeline(agents, initial, model).value.1;
    LastAgentStep(agents, initial, model);
    var prev := Pipeline(agents[..n], initial, model).value;
    ContextIsAccumulated(agents[..n], initial, model);
    AgentSeesEarlierOutputs(agents[..n], initial, model, k);
    assert agents[..n][k] == agents[k];
    assert Names(agents[..n])[..k] == Names(agents)[..k];
    assert prev.1[..k] == rs[..k];
    assert prev.1[k] == rs[k];
  }

  /** The last agent sees the context of the run before it. */
  lemma LastAgentSees(agents: seq<Agent>, initial: string, model: Model)
    requires Pipeline(agents, initial, model).Ok? && agents != []
    ensures |Pipeline(agents, initial, model).value.1| == |agents|
    ensures var k := |agents| - 1;
            Format(agents[k].template,
                   Accumulate(initial, Names(agents)[..k], Pipeline(agents, initial, model).value.1[..k])).Ok?
    ensures var k := |agents| - 1;
            Pipeline(agents, initial, model).value.1[k]
            == CallGemini(model(Format(agents[k].template,
                   Accumulate(initial, Names(agents)[..k], Pipeline(agents, initial, model).value.1[..k])).value))
  {
    var n := |agents| - 1;
    var rs := Pipeline(agents, initial, model).value.1;
    LastAgentStep(agents, initial, model);
    var prev := Pipeline(agents[..n], initial, model).value;
    ContextIsAccumulated(agents[..n], initial, model);
    assert Names(agents)[..n] == Names(agents[..n]);
    assert rs[..n] == prev.1;
  }

  /** The result keys are exactly the agent names. */
  lemma {:induction false} ResultKeysAreNames(names: seq<string>, responses: seq<string>)
    requires |names| == |responses|
    ensures Results(names, responses).Keys == set k | 0 <= k < |names| :: names[k]
    decreases |names|
  {
    if names != [] {
      var n := |names| - 1;
      ResultKeysAreNames(names[..n], responses[..n]);
      assert (set k | 0 <= k < |names| :: names[k])
          == (set k | 0 <= k < n :: names[..n][k]) + {names[n]};
    }
  }

  /** With repeated names the response of the last agent of that name is
      kept. */
  lemma {:induction false} LastDuplicateWins(names: seq<string>, responses: seq<string>, k: nat)
    requires |names| == |responses|
    requires k < |names|
    requires forall j :: k < j < |names| ==> names[j] != names[k]
    ensures names[k] in Results(names, responses)
    ensures Results(names, responses)[names[k]] == responses[k]
    decreases |names|
  {
    var n := |names| - 1;
    if k < n {
      LastDuplicateWins(names[..n], responses[..n], k);
    }
  }

  /** When every template formats under every context, the run cannot
      fail. */
  lemma {:induction false} WellFormedTemplatesNeverFail(agents: seq<Agent>, initial: string, model: Model)
    requires forall k, c :: 0 <= k < |agents| ==> Format(agents[k].template, c).Ok?
    ensures Pipeline(agents, initial, model).Ok?
    decreases |agents|
  {
    if agents != [] {
      var n := |agents| - 1;
      WellFormedTemplatesNeverFail(agents[..n], initial, model);
    }
  }
}
