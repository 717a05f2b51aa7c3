/**
 * The routing decision of `GraphRAGRouter.route`: a schema check, an entity
 * probe, then a strategy chosen from the question's classification and the
 * probe's answer, with a fixed fallback order when a strategy fails.
 *
 * The graph store, the retrievers and the language model are oracles: the
 * answers they give are fixed functions carried by the router's configuration.
 */
module Router {
  import opened Wrappers
  import opened Classifier
  import opened Results

  /** The four retrieval strategies the router can report. */
  datatype Tool = SchemaTool | Text2CypherTool | VectorCypherTool | VectorTool
  {
    /** The name `route` returns for the strategy. */
    function Name(): string
    {
      match this
      case SchemaTool => "schema_tool"
      case Text2CypherTool => "text2cypher_tool"
      case VectorCypherTool => "vector_cypher_tool"
      case VectorTool => "vector_tool"
    }
  }

  const ToolNames: set<string> := {"schema_tool", "text2cypher_tool", "vector_cypher_tool", "vector_tool"}

  /** What `run_text2cypher` reports when the router was built without a language model. */
  const NotConfiguredMessage := "Text2Cypher not configured (no LLM)."

  /**
   * The graph store as the router sees it: the answers of the entity probe, of the
   * schema visualisation query, and of the vector and vector-with-expansion
   * retrievers for a question and a result limit.
   */
  datatype Store = Store(
    entityExists: string -> bool,
    schema: SchemaGraph,
    vectorSearch: (string, int) -> seq<Item>,
    vectorCypherSearch: (string, int) -> seq<Item>)

  /** A language model, seen through the structured-query retriever built over it. */
  datatype Llm = Llm(text2cypher: string -> Response)

  /** One external call made while routing, with the answer it gave. */
  datatype Call = Probe(name: string, found: bool) | Invoke(tool: Tool, response: Response)

  // ---------------------------------------------------------------------------
  // Entity probing: any(entity_exists(driver, e) for e in entities)
  // ---------------------------------------------------------------------------

  /** The probes `any` makes: in order, stopping after the first entity that exists. */
  function ProbeTrace(entityExists: string -> bool, entities: seq<string>): (t: seq<Call>)
    ensures |t| <= |entities|
  {
    if entities == [] then []
    else
      var found := entityExists(entities[0]);
      [Probe(entities[0], found)] + (if found then [] else ProbeTrace(entityExists, entities[1..]))
  }

  /** Some extracted entity exists in the graph. */
  predicate InGraph(entityExists: string -> bool, entities: seq<string>)
  {
    exists k :: 0 <= k < |entities| && entityExists(entities[k])
  }

  /**
   * With no entities there is no probe; otherwise the probes ask about the entities
   * in extraction order, every one but the last was not found, and they stop either
   * at the first entity found or after the last entity. The last probe was answered
   * yes exactly when some entity exists.
   */
  lemma {:induction false} ProbeTraceShortCircuits(entityExists: string -> bool, entities: seq<string>)
    ensures var t := ProbeTrace(entityExists, entities);
      && (entities == [] <==> t == [])
      && (forall k :: 0 <= k < |t| ==> t[k] == Probe(entities[k], entityExists(entities[k])))
      && (forall k :: 0 <= k < |t| - 1 ==> !entityExists(entities[k]))
      && (|t| == |entities| || entityExists(entities[|t| - 1]))
      && (InGraph(entityExists, entities) <==> t != [] && t[|t| - 1].found)
  {
    if entities != [] {
      var rest := entities[1..];
      ProbeTraceShortCircuits(entityExists, rest);
      if !entityExists(entities[0]) {
        var t := ProbeTrace(entityExists, entities);
        var tr := ProbeTrace(entityExists, rest);
        assert t == [t[0]] + tr;
        assert forall k :: 1 <= k < |t| ==> t[k] == tr[k - 1] && entities[k] == rest[k - 1];
        InGraphTail(entityExists, entities);
      }
    }
  }

  /** Probing from position i asks about entity i, then goes on from i + 1 unless it was found. */
  lemma ProbeTraceStep(entityExists: string -> bool, entities: seq<string>, i: nat)
    requires i < |entities|
    ensures ProbeTrace(entityExists, entities[i..])
      == [Probe(entities[i], entityExists(entities[i]))]
         + (if entityExists(entities[i]) then [] else ProbeTrace(entityExists, entities[i + 1..]))
  {
    assert entities[i..][1..] == entities[i + 1..];
  }

  /** When the first entity does not exist, some entity exists exactly when one of the rest does. */
  lemma InGraphTail(entityExists: string -> bool, entities: seq<string>)
    requires entities != [] && !entityExists(entities[0])
    ensures InGraph(entityExists, entities) <==> InGraph(entityExists, entities[1..])
  {
    var rest := entities[1..];
    if InGraph(entityExists, entities) {
      var k :| 0 <= k < |entities| && entityExists(entities[k]);
      assert entityExists(rest[k - 1]);
    }
    if InGraph(entityExists, rest) {
      var k :| 0 <= k < |rest| && entityExists(rest[k]);
      assert entityExists(entities[k + 1]);
    }
  }

  // ---------------------------------------------------------------------------
  // Fallback
  // ---------------------------------------------------------------------------

  /**
   * The strategy behind this call failed, so the router falls back: a structured
   * query whose result is not `_ok`, or an expansion whose result is `_empty`.
   * Plain vector retrieval is terminal and never fails.
   */
  predicate Failed(c: Call)
  {
    && c.Invoke?
    && ((c.tool == Text2CypherTool && !Ok(c.response)) || (c.tool == VectorCypherTool && Empty(c.response)))
  }

  /** The strategy tried after a failed one. */
  function Fallback(t: Tool): Tool
  {
    if t == Text2CypherTool then VectorCypherTool else VectorTool
  }

  /**
   * A run of strategy invocations: each answered as `run` says, each but the last
   * failed and was followed by its fallback, and the last did not fail.
   */
  ghost predicate FallbackChain(chain: seq<Call>, run: Tool -> Response)
  {
    && chain != []
    && (forall k :: 0 <= k < |chain| ==>
          chain[k].Invoke? && chain[k].tool != SchemaTool && chain[k].response == run(chain[k].tool))
    && (forall k :: 0 <= k < |chain| - 1 ==> Failed(chain[k]) && chain[k + 1].tool == Fallback(chain[k].tool))
    && !Failed(chain[|chain| - 1])
  }

  /** A strategy that did not fail ends a chain by itself. */
  lemma LastOfChain(c: Call, run: Tool -> Response)
    requires c.Invoke? && c.tool != SchemaTool && c.response == run(c.tool) && !Failed(c)
    ensures FallbackChain([c], run)
  {
  }

  /** A strategy that failed, followed by a chain from its fallback, is a chain. */
  lemma FailedThenChain(c: Call, chain: seq<Call>, run: Tool -> Response)
    requires c.Invoke? && c.tool != SchemaTool && c.response == run(c.tool) && Failed(c)
    requires FallbackChain(chain, run) && chain[0].tool == Fallback(c.tool)
    ensures FallbackChain([c] + chain, run)
  {
    var r := [c] + chain;
    assert forall k :: 1 <= k < |r| ==> r[k] == chain[k - 1];
  }

  /** What follows the first call of a chain that failed is again a chain. */
  lemma ChainTail(chain: seq<Call>, run: Tool -> Response)
    requires FallbackChain(chain, run) && |chain| > 1
    ensures FallbackChain(chain[1..], run)
    ensures Failed(chain[0]) && chain[1].tool == Fallback(chain[0].tool)
  {
    var tail := chain[1..];
    assert forall k :: 0 <= k < |tail| ==> tail[k] == chain[k + 1];
  }

  /** Rank of a strategy in the fallback order; a fallback always moves to a higher rank. */
  function Rank(t: Tool): nat
  {
    match t
    case SchemaTool => 0
    case Text2CypherTool => 0
    case VectorCypherTool => 1
    case VectorTool => 2
  }

  /**
   * Along a chain each strategy sits one rank after the one before it: the
   * structured query can only come first, and plain vector retrieval only last.
   */
  lemma {:induction false} ChainRanks(chain: seq<Call>, run: Tool -> Response, k: nat)
    requires FallbackChain(chain, run) && k < |chain|
    ensures Rank(chain[k].tool) == Rank(chain[0].tool) + k
    ensures k > 0 ==> chain[k].tool != Text2CypherTool
    ensures chain[k].tool == VectorTool ==> k == |chain| - 1
  {
    if k > 0 {
      ChainRanks(chain, run, k - 1);
      assert Failed(chain[k - 1]);
    }
    if k < |chain| - 1 {
      assert Failed(chain[k]);
    }
  }

  /**
   * Fallback never loops: a chain invokes each strategy at most once, so at most
   * three strategies run, and at most two when it starts at the expansion.
   */
  lemma {:induction false} FallbackChainIsShort(chain: seq<Call>, run: Tool -> Response)
    requires FallbackChain(chain, run)
    ensures |chain| + Rank(chain[0].tool) <= 3
  {
    if |chain| > 1 {
      var tail := chain[1..];
      ChainTail(chain, run);
      FallbackChainIsShort(tail, run);
      assert Rank(chain[1].tool) == Rank(chain[0].tool) + 1;
    }
  }

  /** A fallback chain is determined by where it starts and by what each strategy answers. */
  lemma {:induction false} FallbackChainDetermined(c1: seq<Call>, c2: seq<Call>, run: Tool -> Response)
    requires FallbackChain(c1, run) && FallbackChain(c2, run)
    requires c1[0].tool == c2[0].tool
    ensures c1 == c2
    decreases |c1|
  {
    assert c1[0] == c2[0];
    if |c1| == 1 {
      assert !Failed(c1[0]);
      assert |c2| == 1;
    } else {
      assert Failed(c2[0]);
      var t1, t2 := c1[1..], c2[1..];
      ChainTail(c1, run);
      ChainTail(c2, run);
      FallbackChainDetermined(t1, t2, run);
      assert c1 == [c1[0]] + t1 && c2 == [c2[0]] + t2;
    }
  }

  // ---------------------------------------------------------------------------
  // The router
  // ---------------------------------------------------------------------------

  class GraphRAGRouter {
    const store: Store
    const topK: int
    /** The structured-query retriever; it exists only when a language model was supplied. */
    const text2cypherRetriever: Option<string -> Response>

    constructor (store: Store, llm: Option<Llm>, topK: int := 5)
      ensures this.store == store && this.topK == topK
      ensures text2cypherRetriever.Some? <==> llm.Some?
      ensures llm.Some? ==> text2cypherRetriever == Some(llm.value.text2cypher)
    {
      this.store := store;
      this.topK := topK;
      this.text2cypherRetriever := if llm.Some? then Some(llm.value.text2cypher) else None;
    }

    // ---- tool executors ----

    /** `run_vector`: the vector retriever's hits; never an error, empty exactly when nothing was retrieved. */
    function RunVector(question: string): (r: Response)
      ensures r.hits == Some(store.vectorSearch(question, topK))
      ensures Ok(r) && (Empty(r) <==> store.vectorSearch(question, topK) == [])
    {
      HitsResponse(store.vectorSearch(question, topK))
    }

    /** `run_vector_cypher`: the expanding retriever's hits; never an error, empty exactly when nothing was retrieved. */
    function RunVectorCypher(question: string): (r: Response)
      ensures r.hits == Some(store.vectorCypherSearch(question, topK))
      ensures Ok(r) && (Empty(r) <==> store.vectorCypherSearch(question, topK) == [])
    {
      HitsResponse(store.vectorCypherSearch(question, topK))
    }

    /** `run_text2cypher`: without a language model, a "not configured" error that is never `_ok`. */
    function RunText2Cypher(question: string): (r: Response)
      ensures text2cypherRetriever.None? ==> r.error == Some(NotConfiguredMessage) && !Ok(r) && Empty(r)
      ensures text2cypherRetriever.Some? ==> r == text2cypherRetriever.value(question)
    {
      if text2cypherRetriever.None? then ErrorResponse(NotConfiguredMessage)
      else text2cypherRetriever.value(question)
    }

    /** `run_schema_tool`: the schema payload, which is `_ok` and has no hits. */
    function RunSchemaTool(): (r: Response)
      ensures r.schema == Some(store.schema) && Ok(r) && Empty(r)
    {
      SchemaResponse(store.schema)
    }

    /** The executor of each strategy. */
    function Run(tool: Tool, question: string): Response
    {
      match tool
      case SchemaTool => RunSchemaTool()
      case Text2CypherTool => RunText2Cypher(question)
      case VectorCypherTool => RunVectorCypher(question)
      case VectorTool => RunVector(question)
    }

    // ---- routing ----

    /**
     * The probe loop of `route`: asks about each entity in turn until one exists;
     * `inGraph` says whether one did.
     */
    method ProbeEntities(entities: seq<string>) returns (inGraph: bool, ghost probes: seq<Call>)
      ensures inGraph <==> InGraph(store.entityExists, entities)
      ensures probes == ProbeTrace(store.entityExists, entities)
    {
      inGraph, probes := false, [];
      if entities != [] {
        var i := 0;
        while i < |entities| && !inGraph
          invariant 0 <= i <= |entities|
          invariant inGraph ==> 0 < i && store.entityExists(entities[i - 1])
          invariant !inGraph ==> forall k :: 0 <= k < i ==> !store.entityExists(entities[k])
          invariant inGraph ==> probes == ProbeTrace(store.entityExists, entities)
          invariant !inGraph ==> probes + ProbeTrace(store.entityExists, entities[i..]) == ProbeTrace(store.entityExists, entities)
        {
          var found := store.entityExists(entities[i]);
          ProbeTraceStep(store.entityExists, entities, i);
          probes := probes + [Probe(entities[i], found)];
          inGraph := found;
          i := i + 1;
        }
      }
    }

    /** The strategy tried first once the question is known not to ask for the schema. */
    function FirstStrategy(question: string): Tool
    {
      if IsPreciseQuery(question) && text2cypherRetriever.Some? then Text2CypherTool
      else if InGraph(store.entityExists, ExtractEntities(question)) then VectorCypherTool
      else VectorTool
    }

    /**
     * What `route` does, as a relation between the question, the returned pair and
     * the calls made: a schema request runs the schema query alone; any other question
     * first probes its entities, then runs a fallback chain from the first strategy;
     * the pair returned is the name and the answer of the last strategy run.
     */
    ghost predicate RouteOutcome(question: string, tool: string, result: Response, trace: seq<Call>)
    {
      && trace != []
      && trace[|trace| - 1].Invoke?
      && tool == trace[|trace| - 1].tool.Name()
      && result == trace[|trace| - 1].response
      && if WantsSchema(question) then
           trace == [Invoke(SchemaTool, RunSchemaTool())]
         else
           var probes := ProbeTrace(store.entityExists, ExtractEntities(question));
           && |probes| < |trace|
           && trace[..|probes|] == probes
           && FallbackChain(trace[|probes|..], t => Run(t, question))
           && trace[|probes|].tool == FirstStrategy(question)
    }

    // ---- properties of routing ----

    /** The returned name is one of the four strategy names. */
    lemma RouteNameIsOneOfFour(question: string, tool: string, result: Response, trace: seq<Call>)
      requires RouteOutcome(question, tool, result, trace)
      ensures tool in ToolNames
    {
      var last := trace[|trace| - 1];
      assert last.tool.Name() in ToolNames by {
        match last.tool
        case SchemaTool =>
        case Text2CypherTool =>
        case VectorCypherTool =>
        case VectorTool =>
      }
    }

    /**
     * A schema request is answered by the schema query alone: no entity is probed and
     * no retriever runs.
     */
    lemma SchemaRequestAnsweredAlone(question: string, tool: string, result: Response, trace: seq<Call>)
      requires RouteOutcome(question, tool, result, trace)
      requires WantsSchema(question)
      ensures tool == "schema_tool" && result == SchemaResponse(store.schema)
      ensures |trace| == 1 && forall c :: c in trace ==> c == Invoke(SchemaTool, result)
    {
    }

    /** Every call after the probes of a non-schema question is a strategy of its fallback chain. */
    lemma ChainAfterProbes(question: string, tool: string, result: Response, trace: seq<Call>, k: nat)
      requires RouteOutcome(question, tool, result, trace)
      requires !WantsSchema(question)
      requires k < |trace| && trace[k].Invoke?
      ensures var p := |ProbeTrace(store.entityExists, ExtractEntities(question))|;
        && p <= k
        && forall j :: 0 <= j < p ==> trace[j].Probe?
    {
      var entities := ExtractEntities(question);
      var probes := ProbeTrace(store.entityExists, entities);
      ProbeTraceShortCircuits(store.entityExists, entities);
      assert forall j :: 0 <= j < |probes| ==> trace[j] == probes[j] && probes[j].Probe?;
    }

    /**
     * The expansion strategy is never reported with an empty result: whenever it ran
     * and came back empty, plain vector retrieval ran after it and its result, whatever
     * it holds, is what is returned.
     */
    lemma ExpansionNeverReturnedEmpty(question: string, tool: string, result: Response, trace: seq<Call>)
      requires RouteOutcome(question, tool, result, trace)
      ensures tool == "vector_cypher_tool" ==> !Empty(result)
      ensures forall k ::
        (0 <= k < |trace| && trace[k] == Invoke(VectorCypherTool, RunVectorCypher(question)) && Empty(trace[k].response))
        ==> tool == "vector_tool" && result == RunVector(question)
    {
      var last := trace[|trace| - 1];
      if last.tool == VectorCypherTool && !WantsSchema(question) {
        var p := |ProbeTrace(store.entityExists, ExtractEntities(question))|;
        ChainAfterProbes(question, tool, result, trace, |trace| - 1);
        assert !Failed(trace[p..][|trace| - 1 - p]);
      }
      forall k | 0 <= k < |trace| && trace[k] == Invoke(VectorCypherTool, RunVectorCypher(question))
                   && Empty(trace[k].response)
        ensures tool == "vector_tool" && result == RunVector(question)
      {
        assert !WantsSchema(question);
        var p := |ProbeTrace(store.entityExists, ExtractEntities(question))|;
        var chain := trace[p..];
        ChainAfterProbes(question, tool, result, trace, k);
        assert Failed(chain[k - p]);
        ChainRanks(chain, t => Run(t, question), k - p);
        ChainRanks(chain, t => Run(t, question), k - p + 1);
        assert chain[k - p + 1].tool == VectorTool;
        assert trace[|trace| - 1] == chain[k - p + 1];
      }
    }

    /**
     * "text2cypher_tool" is returned exactly when the question is precise (and not a
     * schema request), the structured-query retriever is configured, and its result
     * is `_ok` -- an error-free result is kept even when its hits are empty.
     */
    lemma TranslationReturnedExactlyWhenOk(question: string, tool: string, result: Response, trace: seq<Call>)
      requires RouteOutcome(question, tool, result, trace)
      ensures tool == "text2cypher_tool" <==>
        && !WantsSchema(question)
        && IsPreciseQuery(question) && text2cypherRetriever.Some?
        && Ok(RunText2Cypher(question))
      ensures tool == "text2cypher_tool" ==> result == RunText2Cypher(question)
    {
      var last := trace[|trace| - 1];
      if !WantsSchema(question) {
        var p := |ProbeTrace(store.entityExists, ExtractEntities(question))|;
        var chain := trace[p..];
        var run := t => Run(t, question);
        assert last == chain[|chain| - 1];
        if tool == "text2cypher_tool" {
          assert last.tool == Text2CypherTool;
          ChainRanks(chain, run, |chain| - 1);
          assert !Failed(chain[0]);
        }
        if IsPreciseQuery(question) && text2cypherRetriever.Some? && Ok(RunText2Cypher(question)) {
          assert !Failed(chain[0]);
          assert |chain| == 1;
        }
      }
    }

    /**
     * Without a language model the structured query never runs and is never returned;
     * a question that is not a schema request goes to the expansion strategy first when
     * one of its entities exists, and otherwise straight to plain vector retrieval.
     */
    lemma WithoutLlm(question: string, tool: string, result: Response, trace: seq<Call>)
      requires RouteOutcome(question, tool, result, trace)
      requires text2cypherRetriever.None?
      ensures tool != "text2cypher_tool"
      ensures forall k :: 0 <= k < |trace| && trace[k].Invoke? ==> trace[k].tool != Text2CypherTool
      ensures !WantsSchema(question) ==>
        var entities := ExtractEntities(question);
        var probes := ProbeTrace(store.entityExists, entities);
        && (InGraph(store.entityExists, entities) ==>
              trace[|probes|] == Invoke(VectorCypherTool, RunVectorCypher(question))
              && (tool == "vector_cypher_tool" || tool == "vector_tool"))
        && (!InGraph(store.entityExists, entities) ==>
              tool == "vector_tool" && trace == probes + [Invoke(VectorTool, RunVector(question))])
    {
      TranslationReturnedExactlyWhenOk(question, tool, result, trace);
      if !WantsSchema(question) {
        var entities := ExtractEntities(question);
        var probes := ProbeTrace(store.entityExists, entities);
        var chain := trace[|probes|..];
        var run := t => Run(t, question);
        forall k | 0 <= k < |trace| && trace[k].Invoke? ensures trace[k].tool != Text2CypherTool {
          ChainAfterProbes(question, tool, result, trace, k);
          ChainRanks(chain, run, k - |probes|);
        }
        ChainRanks(chain, run, |chain| - 1);
        if !InGraph(store.entityExists, entities) {
          ChainRanks(chain, run, 0);
          assert |chain| == 1;
          assert trace == trace[..|probes|] + chain;
        }
      }
    }

    /** Routing the same question against the same store gives the same answer and the same calls. */
    lemma RouteDeterministic(question: string, tool1: string, result1: Response, trace1: seq<Call>,
                             tool2: string, result2: Response, trace2: seq<Call>)
      requires RouteOutcome(question, tool1, result1, trace1)
      requires RouteOutcome(question, tool2, result2, trace2)
      ensures tool1 == tool2 && result1 == result2 && trace1 == trace2
    {
      if !WantsSchema(question) {
        var p := |ProbeTrace(store.entityExists, ExtractEntities(question))|;
        FallbackChainDetermined(trace1[p..], trace2[p..], t => Run(t, question));
        assert trace1 == trace1[..p] + trace1[p..];
        assert trace2 == trace2[..p] + trace2[p..];
      }
    }

    /** A question that is not a schema request ends after its probes and a fallback chain from the first strategy. */
    lemma ProbesThenChain(question: string, probes: seq<Call>, chain: seq<Call>)
      requires !WantsSchema(question)
      requires probes == ProbeTrace(store.entityExists, ExtractEntities(question))
      requires FallbackChain(chain, t => Run(t, question)) && chain[0].tool == FirstStrategy(question)
      ensures var last := chain[|chain| - 1];
        RouteOutcome(question, last.tool.Name(), last.response, probes + chain)
    {
      var trace := probes + chain;
      assert trace[..|probes|] == probes;
      assert trace[|probes|..] == chain;
    }

    /** `route`: the strategy used and its result; `trace` records the external calls made. */
    method Route(question: string) returns (tool: string, result: Response, ghost trace: seq<Call>)
      ensures RouteOutcome(question, tool, result, trace)
      ensures tool in ToolNames
      ensures WantsSchema(question) ==> tool == "schema_tool" && result == SchemaResponse(store.schema)
      ensures tool == "vector_cypher_tool" ==> !Empty(result)
      ensures tool == "text2cypher_tool" <==>
        && !WantsSchema(question)
        && IsPreciseQuery(question) && text2cypherRetriever.Some?
        && Ok(RunText2Cypher(question))
      ensures tool == "text2cypher_tool" ==> result == RunText2Cypher(question)
    {
      if WantsSchema(question) {
        result := RunSchemaTool();
        tool := SchemaTool.Name();
        trace := [Invoke(SchemaTool, result)];
        RouteNameIsOneOfFour(question, tool, result, trace);
        return;
      }

      var entities := ExtractEntities(question);
      var inGraph;
      ghost var probes, chain;
      inGraph, probes := ProbeEntities(entities);

      ghost var run := t => Run(t, question);
      if IsPreciseQuery(question) && text2cypherRetriever.Some? {
        tool, result := Text2CypherTool.Name(), RunText2Cypher(question);
        ghost var c1 := Invoke(Text2CypherTool, result);
        if !Ok(result) {
          tool, result := VectorCypherTool.Name(), RunVectorCypher(question);
          ghost var c2 := Invoke(VectorCypherTool, result);
          if Empty(result) {
            tool, result := VectorTool.Name(), RunVector(question);
            ghost var c3 := Invoke(VectorTool, result);
            LastOfChain(c3, run);
            FailedThenChain(c2, [c3], run);
            chain := [c2] + [c3];
          } else {
            LastOfChain(c2, run);
            chain := [c2];
          }
          FailedThenChain(c1, chain, run);
          chain := [c1] + chain;
        } else {
          LastOfChain(c1, run);
          chain := [c1];
        }
      } else if inGraph {
        tool, result := VectorCypherTool.Name(), RunVectorCypher(question);
        ghost var c1 := Invoke(VectorCypherTool, result);
        if Empty(result) {
          tool, result := VectorTool.Name(), RunVector(question);
          ghost var c2 := Invoke(VectorTool, result);
          LastOfChain(c2, run);
          FailedThenChain(c1, [c2], run);
          chain := [c1] + [c2];
        } else {
          LastOfChain(c1, run);
          chain := [c1];
        }
      } else {
        tool, result := VectorTool.Name(), RunVector(question);
        ghost var c1 := Invoke(VectorTool, result);
        LastOfChain(c1, run);
        chain := [c1];
      }
      trace := probes + chain;
      ProbesThenChain(question, probes, chain);
      RouteNameIsOneOfFour(question, tool, result, trace);
      ExpansionNeverReturnedEmpty(question, tool, result, trace);
      TranslationReturnedExactlyWhenOk(question, tool, result, trace);
    }
  }
}
