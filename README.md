# GraphRAG question router — a verified Dafny model

This project models the routing logic of `GraphRAGRouter` in
`workshop-genai/workshop-genai/router.py`. The router takes a natural-language
question and picks one of four retrieval strategies over a Neo4j knowledge
graph with vector embeddings. The strategies are schema visualisation
(`schema_tool`), natural-language-to-Cypher translation (`text2cypher_tool`),
vector search with graph expansion (`vector_cypher_tool`) and plain vector
search (`vector_tool`). It runs the chosen strategy, falls back in a fixed
order when the result is an error or is empty, and returns the pair
(strategy name, result).

Files:

- `text.dfy` (module `Text`): character classes, ASCII lower-casing,
  substring search (`k in s`) and the regular-expression word boundary `\b`.
- `classifier.dfy` (module `Classifier`): the three predicates over question text.
  - `WantsSchema` is `wants_schema`.
  - `IsPreciseQuery` is `is_precise_query`. It is a scan over positions, proved equal to an independent "some keyword occurs between two word boundaries" definition.
  - `ExtractEntities` is `extract_entities_simple`. It is a model of `re.findall` with greedy backtracking. Its spans are proved to satisfy an independent description of findall's result, and that description is proved to allow no other result.
- `results.dfy` (module `Results`): the result mapping.
  - `Response` has optional `hits`, `error` and schema entries, so an empty mapping and `{"error": ""}` can both be written.
  - `Ok` is `_ok`; `Empty` is `_empty`.
- `router.dfy` (module `Router`): the router itself.
  - The graph store (entity probe, schema query, the two vector retrievers) is a datatype of oracle functions. The language model is seen through the structured-query retriever built on it.
  - `GraphRAGRouter` is a class with immutable (`const`) configuration. Its methods are the executors `run_*`, the probe loop `ProbeEntities` (the short-circuiting `any(...)`) and `Route`.
  - `Route` returns the pair together with a ghost trace of the external calls it made. It is proved against `RouteOutcome`, which states the routing in its own terms: a schema request runs the schema query alone. Any other question first probes its entities, then runs a *fallback chain* from its first strategy. In a fallback chain, every strategy but the last failed and was followed by its fallback, and the last did not fail. "Failed" means not `_ok` for translation and `_empty` for expansion; plain vector search never fails.
  - The lemmas beside `Route` derive the routing properties from `RouteOutcome`.
- `scenarios.dfy` (module `Scenarios`): worked questions. Examples are "counting", "How many Employees work in Paris?", "Paris is in France", "ABC-" and "Show me the graph schema".

Three points about the code that are easy to miss:

- Without a language model, `text2cypher_retriever` is `None`, so `route` skips the precise branch entirely (router.py:87-90, 102). It never reaches the "not configured" error of `run_text2cypher`. That guard is modelled in `RunText2Cypher`, but `Route` never calls it without a retriever.
- Entities are probed before the precise branch is considered, for every question that is not a schema request (router.py:98-99).
- Extraction keeps duplicates (router.py:35).

## Model

| member | source | states |
|---|---|---|
| `Text.Contains` | workshop-genai/workshop-genai/router.py:43 | `k in s` holds exactly when k occurs at some position of s |
| `Text.LowerIdempotent` | workshop-genai/workshop-genai/router.py:38 | lower-casing an already lower-cased string changes nothing |
| `Classifier.WantsSchema` | workshop-genai/workshop-genai/router.py:41-43 | `wants_schema` holds exactly when one of the six keywords occurs at some position of the lower-cased question, even inside a longer word |
| `Classifier.WantsSchemaIgnoresCase` | workshop-genai/workshop-genai/router.py:42 | `wants_schema` gives the same answer on the lower-cased question |
| `Classifier.DigitRunEnd` | workshop-genai/workshop-genai/router.py:39 | the `\d+` of `top \d+` takes the longest run of digits: every character before the returned end is a digit, and the one at the end is not |
| `Classifier.PreciseMatchAtCorrect` | workshop-genai/workshop-genai/router.py:39 | the pattern matches at position i exactly when some keyword (or `top ` plus digits) starts at i with a word boundary on both sides |
| `Classifier.TopNSpanEnd` | workshop-genai/workshop-genai/router.py:39 | an occurrence of `top \d+` that ends on a word boundary ends exactly where the digit run ends |
| `Classifier.PreciseFromCorrect` | workshop-genai/workshop-genai/router.py:39 | the scan of `re.search` from i succeeds exactly when an occurrence starts at i or later |
| `Classifier.IsPreciseQuery` | workshop-genai/workshop-genai/router.py:37-39 | `is_precise_query` holds exactly when a keyword of the alternation (or `top ` plus digits) occurs in the lower-cased question between two word boundaries |
| `Classifier.IsPreciseQueryIgnoresCase` | workshop-genai/workshop-genai/router.py:38 | `is_precise_query` gives the same answer on the lower-cased question |
| `Classifier.EntityRunEnd` | workshop-genai/workshop-genai/router.py:35 | `[a-zA-Z0-9\-]{2,}` starts from the longest run of entity characters |
| `Classifier.LastBoundary` | workshop-genai/workshop-genai/router.py:35 | backtracking settles on the greatest position in range that has a word boundary, or on none when no position has one |
| `Classifier.EntityMatchAt` | workshop-genai/workshop-genai/router.py:35 | the match at p is a span that starts with an upper-case letter, has length at least 3, continues with letters, digits and hyphens, and has a boundary on both sides; it is the longest such span; when there is none, no match starts at p |
| `Classifier.EntitySpans` | workshop-genai/workshop-genai/router.py:35 | every span found by the scan from p starts at or after p and is a match of the entity pattern |
| `Classifier.EntitySpansFindAll` | workshop-genai/workshop-genai/router.py:35 | the scan collects what `re.findall` returns: longest matches, left to right, non-overlapping; every position from p at which a match could start is a span start or lies inside a span |
| `Classifier.FindAllCons` | workshop-genai/workshop-genai/router.py:35 | a longest match at p followed by the matches found from its end is what findall returns from p |
| `Classifier.FindAllConsCovers` | workshop-genai/workshop-genai/router.py:35 | after a match at p, every later position where a match could start is covered by that match or by the ones after it |
| `Classifier.FindAllSkip` | workshop-genai/workshop-genai/router.py:35 | a position where no match starts adds nothing to what findall returns |
| `Classifier.FindAllOrdered` | workshop-genai/workshop-genai/router.py:35 | in a findall result, every span ends before any later span starts |
| `Classifier.FindAllInside` | workshop-genai/workshop-genai/router.py:35 | every span of a findall result starts inside the question, so from its end there is none |
| `Classifier.FindAllFromNext` | workshop-genai/workshop-genai/router.py:35 | where no match starts at p, a findall result from p is also one from p + 1 |
| `Classifier.FindAllFirst` | workshop-genai/workshop-genai/router.py:35 | where the longest match at p ends at `end`, a findall result from p starts with that match and continues with a findall result from `end` |
| `Classifier.FindAllUnique` | workshop-genai/workshop-genai/router.py:35 | the findall description allows exactly one result: the spans the scan computes |
| `Classifier.SpanTextIsToken` | workshop-genai/workshop-genai/router.py:35 | the text of a match is a capital followed by at least two letters, digits or hyphens |
| `Classifier.ExtractEntities` | workshop-genai/workshop-genai/router.py:32-35 | every returned entity is a capital followed by at least two letters, digits or hyphens |
| `Classifier.ExtractEntitiesIsFindAll` | workshop-genai/workshop-genai/router.py:32-35 | `extract_entities_simple` returns, in order and with duplicates, the texts of the spans of a findall result, and of every findall result, since there is only one |
| `Classifier.ExtractedEntityOccurs` | workshop-genai/workshop-genai/router.py:35 | every extracted entity occurs in the question as a match, between word boundaries |
| `Router.ProbeTrace` | workshop-genai/workshop-genai/router.py:99 | `any(...)` asks about at most as many entities as were extracted |
| `Router.ProbeTraceStep` | workshop-genai/workshop-genai/router.py:99 | probing from entity i asks about entity i, then goes on with the next one unless it was found |
| `Router.InGraph` | workshop-genai/workshop-genai/router.py:99 | definition: some extracted entity exists in the graph, which is what `any(...)` returns; `ProbeEntities` and `ProbeTraceShortCircuits` are proved against it |
| `Router.Failed` | workshop-genai/workshop-genai/router.py:105-116 | definition: a call failed when it is a translation whose result is not `_ok` (line 105) or an expansion whose result is `_empty` (lines 108 and 116); plain vector search never fails |
| `Router.Fallback` | workshop-genai/workshop-genai/router.py:105-118 | definition: after translation comes expansion (lines 106-107), after expansion plain vector search (lines 109-110 and 117-118); `ChainRanks` and `FallbackChainIsShort` show the order never loops |
| `Router.GraphRAGRouter.FirstStrategy` | workshop-genai/workshop-genai/router.py:102-122 | definition: translation when the question is precise and the translation retriever exists (line 102), else expansion when some entity exists (line 113), else plain vector search (line 122) |
| `Router.ProbeTraceShortCircuits` | workshop-genai/workshop-genai/router.py:98-99 | probing asks about no entity when none was extracted; otherwise probe k asks about entity k and gets its answer, in extraction order, and probing stops at the first entity that exists; `in_graph` holds exactly when the last probe answered yes |
| `Router.InGraphTail` | workshop-genai/workshop-genai/router.py:99 | when the first entity does not exist, some entity exists exactly when one of the remaining ones does |
| `Results.Ok` | workshop-genai/workshop-genai/router.py:148-150 | definition of `_ok`: the mapping is not empty and its "error" entry is absent or the empty string |
| `Results.Empty` | workshop-genai/workshop-genai/router.py:152-155 | definition of `_empty`: the "hits" entry is absent or holds no hits |
| `Router.ChainTail` | workshop-genai/workshop-genai/router.py:105-110 | the calls after a failed strategy form a chain that starts at its fallback |
| `Router.ChainRanks` | workshop-genai/workshop-genai/router.py:102-119 | along a fallback chain, each strategy is the next in the fixed order: translation can only come first, and plain vector search only last |
| `Router.FallbackChainIsShort` | workshop-genai/workshop-genai/router.py:102-119 | fallback never loops: at most three strategies run, at most two starting from expansion |
| `Router.FallbackChainDetermined` | workshop-genai/workshop-genai/router.py:102-122 | a fallback chain is fixed by its first strategy and by what each strategy answers |
| `Router.LastOfChain` | workshop-genai/workshop-genai/router.py:111 | a strategy that did not fail ends the chain |
| `Router.FailedThenChain` | workshop-genai/workshop-genai/router.py:105-110 | a failed strategy followed by a chain from its fallback is a chain |
| `Router.GraphRAGRouter.constructor` | workshop-genai/workshop-genai/router.py:47-90 | the configuration is stored once; the structured-query retriever exists exactly when a language model is supplied |
| `Router.GraphRAGRouter.RunVector` | workshop-genai/workshop-genai/router.py:125-127 | the result holds the vector retriever's hits; it is never an error, and it is `_empty` exactly when nothing was retrieved |
| `Router.GraphRAGRouter.RunVectorCypher` | workshop-genai/workshop-genai/router.py:129-131 | the result holds the expanding retriever's hits; it is never an error, and it is `_empty` exactly when nothing was retrieved |
| `Router.GraphRAGRouter.RunText2Cypher` | workshop-genai/workshop-genai/router.py:133-136 | without a retriever, the result is the "not configured" error, which is never `_ok`; otherwise it is the retriever's own result |
| `Router.GraphRAGRouter.RunSchemaTool` | workshop-genai/workshop-genai/router.py:138-145 | the result is the schema payload: `_ok`, with no hits |
| `Router.GraphRAGRouter.ProbeEntities` | workshop-genai/workshop-genai/router.py:99 | the `any(...)` loop returns true exactly when some extracted entity exists, and makes exactly the probes of the short-circuit trace |
| `Router.GraphRAGRouter.Route` | workshop-genai/workshop-genai/router.py:93-122 | the returned pair is the name and result of the last strategy run. A schema request runs the schema query alone. Otherwise the entities are probed first, then a fallback chain runs from translation (precise question and retriever configured), else from expansion (some entity exists), else from plain vector search. On the returned values alone: the name is one of the four; a schema request gets the schema tool and the schema; expansion is never returned empty; translation is returned exactly when the question is precise, not a schema request, the retriever is configured and its result is `_ok`, and then its result is what is returned |
| `Router.GraphRAGRouter.ProbesThenChain` | workshop-genai/workshop-genai/router.py:98-122 | probes followed by a fallback chain from the first strategy form a routing outcome whose pair is the last strategy's |
| `Router.GraphRAGRouter.RouteNameIsOneOfFour` | workshop-genai/workshop-genai/router.py:93-122 | the returned name is one of `schema_tool`, `text2cypher_tool`, `vector_cypher_tool`, `vector_tool` |
| `Router.GraphRAGRouter.SchemaRequestAnsweredAlone` | workshop-genai/workshop-genai/router.py:95-96 | a schema request returns `schema_tool` with the schema result; no entity probe and no retriever runs |
| `Router.GraphRAGRouter.ChainAfterProbes` | workshop-genai/workshop-genai/router.py:98-102 | every strategy call comes after all the entity probes, and the calls before the end of the probe prefix are all probes |
| `Router.GraphRAGRouter.ExpansionNeverReturnedEmpty` | workshop-genai/workshop-genai/router.py:105-119 | `vector_cypher_tool` is never returned with an `_empty` result; when expansion ran and came back empty, the answer is `vector_tool` with the plain vector result, whatever it holds |
| `Router.GraphRAGRouter.TranslationReturnedExactlyWhenOk` | workshop-genai/workshop-genai/router.py:102-111 | `text2cypher_tool` is returned exactly when the question is precise and not a schema request, translation is configured, and its result is `_ok`; an error-free result is kept even with empty hits |
| `Router.GraphRAGRouter.WithoutLlm` | workshop-genai/workshop-genai/router.py:102-122 | without a language model, translation never runs and is never returned. A non-schema question goes to expansion first when an extracted entity exists; otherwise its only strategy is plain vector search |
| `Router.GraphRAGRouter.RouteDeterministic` | workshop-genai/workshop-genai/router.py:93-122 | the same question against the same store always gives the same name, result and calls |
| `Scenarios.KeywordPrefixesDoNotCount` | workshop-genai/workshop-genai/router.py:39 | "counting" and "minute" are not precise queries |
| `Scenarios.NoKeywordInsideWord` | workshop-genai/workshop-genai/router.py:39 | a single word that is not a keyword contains no match |
| `Scenarios.HowManyIsPrecise` | workshop-genai/workshop-genai/router.py:37-39 | "How many Employees work in Paris?" is a precise query |
| `Scenarios.GraphSchemaWantsSchema` | workshop-genai/workshop-genai/router.py:41-43 | "Show me the graph schema" is a schema request |
| `Scenarios.ParisFranceEntities` | workshop-genai/workshop-genai/router.py:35 | "Paris is in France" yields `["Paris", "France"]` |
| `Scenarios.TrailingHyphenDropped` | workshop-genai/workshop-genai/router.py:35 | "ABC-" yields `["ABC"]` |
| `Scenarios.NoCapitalNoEntity` | workshop-genai/workshop-genai/router.py:35 | "the cat sat" yields no entity |
| `Scenarios.UnderscoreJoinsWords` | workshop-genai/workshop-genai/router.py:35 | "Foo_bar" yields no entity: the underscore is a word character, so no boundary follows "Foo" |
| `Scenarios.CapitalInsideWord` | workshop-genai/workshop-genai/router.py:35 | "xParis" yields no entity: no boundary precedes the capital |
| `Scenarios.GraphSchemaRoute` | workshop-genai/workshop-genai/router.py:95-96 | "Show me the graph schema" is routed to `schema_tool` with one call |

## Left out

- `entity_exists` (router.py:23-30): the Cypher text and the session handling are left out. The probe is an oracle `entityExists: string -> bool`. A connectivity failure that would propagate out of `route` is not modelled.
- `run_vector`, `run_vector_cypher`, `run_text2cypher`, `run_schema_tool` (router.py:126, 130, 136, 143-145): an exception raised by a retriever or by the schema query propagates out of `route` (router.py:93-122 has no handler), so no fallback happens. The oracles here always return, so the model does not capture that abort.
- `run_schema_tool` (router.py:138-145): the `db.schema.visualization` call and its session are left out. The store's schema payload is an oracle value.
- Retriever construction (router.py:63-90) is left out. This covers `VectorRetriever`, `VectorCypherRetriever`, `Text2CypherRetriever`, the default `retrieval_query` Cypher text, `neo4j_schema` and `index_name`. These are foreign library calls. Each retriever is a function from question (and `top_k`) to result. Only the fact that the translation retriever exists exactly when a language model is supplied is kept.
- Retriever outputs are modelled as sequences of opaque items and as result mappings. The library's own result types are not part of this model, so the model reads `_ok` and `_empty` on the mapping shape that router.py's helpers expect.
- A result's "error" entry is modelled as a string; other Python values under that key are not. A "hits" entry is modelled as a sequence, falsy exactly when empty.
- `build_router`, `load_dotenv` and the environment-variable reads (router.py:20, 158-171) are left out. They are configuration plumbing.
- The command-line interface and JSON printing (router.py:173-181) are left out. They are I/O.
- Embedding and language-model behaviour and vector similarity are left out. They are external, and the similarity is floating point.
- Unicode: `str.lower()` and the word characters of `\w` and `\b` are modelled on ASCII only. Python also lower-cases non-ASCII capitals and counts non-ASCII letters and digits as word characters. For example, "countés" does not match in Python, but the model treats "é" as a non-word character. Likewise `\d` is modelled as `0-9`.
- Router state: the trace returned by `Route` is ghost. It records the calls made and has no counterpart in the source.
- Concurrency: routing is sequential. Concurrent use of one router depends only on its collaborators, which are not modelled.
