/**
 * The result mappings the router passes around, and the two tests it applies
 * to them: `_ok` for the structured-query result and `_empty` for hits.
 */
module Results {
  import opened Wrappers

  /** A retrieved item or a schema element; the router never looks inside one. */
  type Item(==)

  /** The schema visualisation: its nodes and its relationships. */
  datatype SchemaGraph = SchemaGraph(nodes: seq<Item>, relationships: seq<Item>)

  /**
   * A result mapping, one optional entry per key the router reads or writes:
   * "hits", "error", and the schema's "nodes"/"relationships" pair.
   * An entry that is `None` is a key absent from the mapping.
   */
  datatype Response = Response(hits: Option<seq<Item>>, error: Option<string>, schema: Option<SchemaGraph>)

  /** `{"hits": hits}` */
  function HitsResponse(hits: seq<Item>): Response
  {
    Response(Some(hits), None, None)
  }

  /** `{"error": message}` */
  function ErrorResponse(message: string): Response
  {
    Response(None, Some(message), None)
  }

  /** `{"nodes": ..., "relationships": ...}` */
  function SchemaResponse(g: SchemaGraph): Response
  {
    Response(None, None, Some(g))
  }

  /** The mapping has no key at all, so Python reads it as false. */
  predicate IsEmptyMapping(r: Response)
  {
    r.hits.None? && r.error.None? && r.schema.None?
  }

  /** `_ok`: a non-empty mapping whose "error" entry is absent or an empty (false) string. */
  predicate Ok(r: Response)
  {
    !IsEmptyMapping(r) && (r.error.None? || r.error.value == "")
  }

  /** `_empty`: the "hits" entry is absent or an empty sequence. */
  predicate Empty(r: Response)
  {
    r.hits.None? || r.hits.value == []
  }
}
