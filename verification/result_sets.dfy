/** The paging state of a search result: which records of the Korp hit list a
    searchRetrieve response carries and the cursor that walks through them
    (src/korp_endpoint/endpoint.py:56-169). */
module ResultSets {
  import opened Results
  import opened Spans

  /** The CLARIN-FCS record schema (`FCS_NS` of the SRU library). */
  const FcsRecordSchema: string := "http://clarin.eu/fcs/resource"

  /** Paging used when the result set is built without a request. */
  const DefaultMaximumRecords: int := 250

  /** The request parameters the result set reads; an empty schema identifier stands for an absent one. */
  datatype Request = Request(startRecord: int, maximumRecords: int, recordSchemaIdentifier: string)

  /** The Korp answer: the total number of hits and the KWIC rows fetched for this page. */
  datatype KorpResult = KorpResult(hits: int, kwic: seq<Kwic>)

  function Max(a: int, b: int): int { if a < b then b else a }
  function Min(a: int, b: int): int { if a < b then a else b }

  /** A result set; `resultset` is `None` for a missing or empty Korp answer. */
  class KorpSearchResultSet {
    const request: Option<Request>
    const resultset: Option<KorpResult>
    const startRecord: int
    const maximumRecords: int
    const recordCount: int
    var currentRecordCursor: int

    /** The cursor stays between the position before the first record and the last record it may reach. */
    predicate Valid()
      reads this
    {
      && startRecord >= 1
      && startRecord - 1 <= currentRecordCursor
      && (resultset.None? ==> currentRecordCursor == startRecord - 1)
      && (resultset.Some? ==> currentRecordCursor <= Max(startRecord - 1, Limit()))
    }

    /** The last position `next_record` may move the cursor to. */
    function Limit(): int
      requires resultset.Some?
    {
      Min(resultset.value.hits, maximumRecords)
    }

    constructor (resultset: Option<KorpResult>, request: Option<Request>)
      ensures this.resultset == resultset && this.request == request
      ensures request.Some? ==>
        && startRecord == Max(1, request.value.startRecord)
        && maximumRecords == startRecord - 1 + request.value.maximumRecords
        && recordCount == request.value.maximumRecords
      ensures request.None? ==>
        startRecord == 1 && maximumRecords == DefaultMaximumRecords && recordCount == DefaultMaximumRecords
      ensures currentRecordCursor == startRecord - 1
      ensures KwicIndex() == -1
      ensures Valid()
    {
      this.request := request;
      this.resultset := resultset;
      if request.Some? {
        var start := Max(1, request.value.startRecord);
        startRecord := start;
        currentRecordCursor := start - 1;
        maximumRecords := start - 1 + request.value.maximumRecords;
        recordCount := request.value.maximumRecords;
      } else {
        startRecord := 1;
        currentRecordCursor := 0;
        maximumRecords := DefaultMaximumRecords;
        recordCount := DefaultMaximumRecords;
      }
    }

    /** `get_total_record_count`: the number of Korp hits, or -1 without a result. */
    function TotalRecordCount(): (r: int)
      ensures resultset.Some? ==> r == resultset.value.hits
      ensures resultset.None? ==> r == -1
    {
      if resultset.Some? then resultset.value.hits else -1
    }

    /** `get_record_count`: the hits, capped at `maximumRecords`; 0 without a result or with a negative count. */
    function RecordCount(): (r: int)
      ensures TotalRecordCount() >= 0 ==> r == Min(TotalRecordCount(), maximumRecords)
      ensures TotalRecordCount() < 0 ==> r == 0
    {
      if resultset.Some? && resultset.value.hits > -1 then
        if resultset.value.hits < maximumRecords then resultset.value.hits else maximumRecords
      else 0
    }

    /** `get_record_schema_identifier`: the requested schema, or the CLARIN-FCS schema when none is given. */
    function RecordSchemaIdentifier(): (r: string)
      ensures r != []
      ensures request.Some? && request.value.recordSchemaIdentifier != [] ==> r == request.value.recordSchemaIdentifier
      ensures request.None? || request.value.recordSchemaIdentifier == [] ==> r == FcsRecordSchema
    {
      if request.Some? && request.value.recordSchemaIdentifier != [] then request.value.recordSchemaIdentifier
      else FcsRecordSchema
    }

    /** `get_surrogate_diagnostic`: raises record-not-available exactly when another
        schema than CLARIN-FCS was requested, and otherwise returns no diagnostic. */
    function SurrogateDiagnostic(): (r: Result<Option<Failure>>)
      ensures r.Err? <==> request.Some? && request.value.recordSchemaIdentifier !in {"", FcsRecordSchema}
      ensures r.Err? ==> r.failure.Diagnostic? && r.failure.code == RecordNotAvailableInThisSchema
                         && r.failure.details == Some(request.value.recordSchemaIdentifier)
      ensures r.Ok? ==> r.value.None?
    {
      var rsid := RecordSchemaIdentifier();
      if rsid != [] && FcsRecordSchema != rsid then
        Err(Diagnostic(RecordNotAvailableInThisSchema, Some(rsid), Some("Record is not available in record schema \"" + rsid + "\".")))
      else Ok(None)
    }

    /** The KWIC row the cursor stands on (line 137): -1 before the first record, and never
        past the row of the last record the cursor may reach. */
    function KwicIndex(): (r: int)
      reads this
      ensures Valid() ==> -1 <= r
      ensures Valid() && resultset.Some? ==> r <= Max(-1, Limit() - startRecord)
      ensures Valid() && resultset.None? ==> r == -1
    {
      currentRecordCursor - startRecord
    }

    /** `next_record`: advances the cursor by one while it is below the last record it may reach. */
    method NextRecord() returns (ok: bool)
      requires Valid() && resultset.Some?
      modifies this
      ensures Valid()
      ensures ok <==> old(currentRecordCursor) < Limit()
      ensures ok <==> old(currentRecordCursor) < RecordCount()
      ensures currentRecordCursor == if ok then old(currentRecordCursor) + 1 else old(currentRecordCursor)
      ensures ok ==> KwicIndex() == old(KwicIndex()) + 1 && 0 <= KwicIndex() <= RecordCount() - startRecord
      ensures ok && old(currentRecordCursor) == startRecord - 1 ==> KwicIndex() == 0
    {
      if currentRecordCursor < Min(resultset.value.hits, maximumRecords) {
        currentRecordCursor := currentRecordCursor + 1;
        ok := true;
      } else {
        ok := false;
      }
    }

    /** `write_record` from line 137 on: the spans of the KWIC row under the cursor, as
        the source writes them; they are the intended record spans unless the match
        starts at token 1. */
    method WriteRecord() returns (spans: seq<Span>)
      requires resultset.Some? && 0 <= KwicIndex() < |resultset.value.kwic|
      requires WellFormedKwic(resultset.value.kwic[KwicIndex()])
      ensures spans == WrittenRecordSpans(resultset.value.kwic[KwicIndex()])
      ensures resultset.value.kwic[KwicIndex()].matchStart != 1 ==> spans == RecordSpans(resultset.value.kwic[KwicIndex()])
    {
      var kwic := resultset.value.kwic[currentRecordCursor - startRecord];
      spans := WriteRecordSpansAsWritten(kwic);
    }
  }
}
