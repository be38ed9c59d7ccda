/** The query-type dispatch of the endpoint's `search`: a CQL query goes to the CQL
    translator, an FCS-QL query to the FCS-QL translator, and any other query type is
    refused (src/korp_endpoint/endpoint.py:253-278). */
module SearchEngine {
  import opened Results
  import CqlConverter
  import FcsConverter

  /** The parsed query of a searchRetrieve request, tagged with its query type. */
  datatype SearchQuery =
    | CqlQuery(node: CqlConverter.CqlNode)
    | FcsQuery(tree: FcsConverter.QueryNode)
    /** a query type the endpoint does not know, by its name */
    | OtherQueryType(queryType: string)

  /** The FCS-QL translator's assertion holds for an FCS-QL query. */
  predicate AssertionsHold(q: SearchQuery) {
    q.FcsQuery? ==> FcsConverter.WellFormed(q.tree)
  }

  /** The CQP query `search` sends to Korp, or the diagnostic it raises before that. */
  function TranslateQuery(q: SearchQuery): (r: Result<string>)
    requires AssertionsHold(q)
    ensures q.CqlQuery? ==> r == CqlConverter.Cql2Cqp(q.node)
    ensures q.FcsQuery? ==> r == FcsConverter.Fcs2Cqp(q.tree)
    ensures q.OtherQueryType? ==> r.Err? && r.failure.Diagnostic? && r.failure.code == CannotProcessQueryReasonUnknown
  {
    match q
    case CqlQuery(node) => CqlConverter.Cql2Cqp(node)
    case FcsQuery(tree) => FcsConverter.Fcs2Cqp(tree)
    case OtherQueryType(queryType) =>
      Err(Diagnostic(CannotProcessQueryReasonUnknown,
        Some("Queries with queryType '" + queryType + "' are not supported by this CLARIN-FCS Endpoint."), None))
  }

  /** Only CQL and FCS-QL can produce a query for Korp: every other query type fails,
      and a CQL query succeeds exactly when it is a single search clause. */
  lemma OnlyKnownQueryTypes(q: SearchQuery)
    requires AssertionsHold(q)
    ensures TranslateQuery(q).Ok? ==> q.CqlQuery? || q.FcsQuery?
    ensures q.CqlQuery? ==> (TranslateQuery(q).Ok? <==> q.node.CqlSearchClause?)
  {
  }
}
