# Korp CLARIN-FCS endpoint: query translation and result paging

This project models the core of a CLARIN Federated Content Search (FCS) 2.0 endpoint that
sits in front of the Korp corpus search engine. It covers two parts of that core.

The first part is the query translation:
- a CQL query (the SRU boolean query language) is translated into a CQP query for the IMS
  Open Corpus Workbench;
- an FCS-QL query (the layered query language) is translated into a CQP query as well;
- the endpoint's `search` dispatches on the query type;
- part-of-speech tags are mapped in both directions between the 17 Universal Dependencies
  part-of-speech tags (UPOS) and the SUC tag set that Korp stores.

The second part is the search result set:
- paging over the Korp hit list, with a cursor;
- the record schema check;
- the annotation spans (word, part of speech, lemma) that the record writer lays out for
  every token of a hit.

The modules are:
- `Results`: the `Option` and `Result` datatypes. A `Failure` is an SRU diagnostic with its
  code, its details argument and its message argument, kept apart as the source passes them.
- `Text`: the Python string built-ins the translators rely on, on ASCII. These are `lower`,
  `upper`, `split()`, `strip("\"'")`, `join`, `split(".", 1)[0]` and integer formatting.
- `PosTags`: the tables `UD172SUC` and `SUC2UD17`, and the lookups `toSUC` and `fromSUC`.
- `CqlConverter`: `cql2cqp`.
- `FcsConverter`: `fcs2cqp` and its helpers.
- `Spans`: the `_add_spans` loop of `write_record` (a method with loop invariants), and the
  layout of a record's spans.
- `ResultSets`: the class `KorpSearchResultSet`. Its constructor fixes the paging. A
  `NextRecord` method moves the cursor.
- `SearchEngine`: the query-type dispatch of `search`.

Each operation is paired with a partner, proved for all inputs:
- the quantifier suffix and the regex-flag suffix are read back into what they encode, and the
  strict suffix reader accepts nothing but the suffixes the translator writes;
- the part-of-speech alternation is split back into its candidates;
- the CQL word split is inverted by a join, and the translation of a search clause is stated
  for every term, whatever white space separates its words;
- an AND segment and an OR segment of the same operands are shown to differ at the operator,
  and the equality and containment operators are shown to be distinct and to pair up;
- the span-writing loop is proved against a recursive specification of the layout;
- the word layer of a record is shown to list every token once, in order, at its offset.

Notes on the code's behaviour, which the model follows:
- Two operands for AND/OR. The code checks this with an `assert` rather than a
  diagnostic, so it is a precondition here (`FcsConverter.WellFormed`).
- A non-simple operand of AND/OR. The code fails with an attribute error, not a diagnostic;
  the model returns `InternalError`.
- Regex flags. The code does not reject them (the check is commented out), although the
  diagnostic text says "no regex flags". The model translates them.
- An unknown UPOS tag. The code reports it as a query syntax error.
- A simple segment with bounds (1,1). Its translation always ends with the single space that
  the quantifier suffix gives, e.g. `[pos = 'NN'] `.
- An unknown CQL node. The text goes in the diagnostic's details argument, not its message,
  as the code passes it. The same holds for the unsupported-expression and unsupported-query-type
  diagnostics.

## Model

| member | source | states |
|---|---|---|
| PosTags.TablesHaveCandidates | src/korp_endpoint/query_converter.py:216-263 | every key of both tables has at least one candidate, so `if res:` only rejects missing keys |
| PosTags.ToSuc | src/korp_endpoint/query_converter.py:266-273 | succeeds iff the upper-cased tag is a key of `UD172SUC`, returning its non-empty candidate list; otherwise a query syntax error naming the tag as written |
| PosTags.FromSuc | src/korp_endpoint/query_converter.py:276-284 | looks up the upper-cased text before the first `.`; succeeds iff it is a key of `SUC2UD17`, returning its candidates; otherwise a cannot-process error naming the shortened tag |
| PosTags.ToSucIgnoresCase | src/korp_endpoint/query_converter.py:267 | `toSUC` gives the same outcome and candidates for a tag and its lower-cased form |
| PosTags.FromSucIgnoresCase | src/korp_endpoint/query_converter.py:277-278 | `fromSUC` gives the same outcome and candidates for a tag and its lower-cased form |
| PosTags.FromSucIgnoresSuffix | src/korp_endpoint/query_converter.py:277 | `fromSUC(p + "." + s)` equals `fromSUC(p)` for a dot-free `p`, the error included |
| PosTags.SucCandidatesKnown | src/korp_endpoint/query_converter.py:216-263 | every SUC candidate offered by `UD172SUC` is a key of `SUC2UD17` |
| PosTags.UdCandidatesKnown | src/korp_endpoint/query_converter.py:216-263 | every UPOS candidate offered by `SUC2UD17` is a key of `UD172SUC` |
| PosTags.NoBarInSucTags | src/korp_endpoint/query_converter.py:216-233 | no SUC candidate contains the bar character, so a bar-joined alternation is unambiguous |
| PosTags.NotInvertible | src/korp_endpoint/query_converter.py:219 | ADJ maps to JJ, PC, RO, but PC maps back only to VERB: the two tables are not inverses |
| PosTags.FromSucSuffixExample | src/korp_endpoint/query_converter.py:276-280 | `fromSUC("pc.sub")` is `["VERB"]` |
| PosTags.FromSucUnknownExample | src/korp_endpoint/query_converter.py:276-284 | `fromSUC("XX.y")` fails naming `XX` |
| Text.WordsOfJoin | src/korp_endpoint/query_converter.py:57 | `split()` of words joined by single spaces gives the words back |
| Text.WordsLower | src/korp_endpoint/query_converter.py:57 | `s.lower().split()` equals lower-casing every word of `s.split()`, for every `s` |
| Text.WordsKeepNonSpace | src/korp_endpoint/query_converter.py:57 | the words of `split()`, concatenated, are exactly the non-space characters, in order |
| Text.StripQuotesIdempotent | src/korp_endpoint/query_converter.py:62 | a stripped term neither starts nor ends with a quote, and stripping again changes nothing |
| Text.IntToDecimalRoundTrip | src/korp_endpoint/query_converter.py:131-132 | the decimal form of an integer reads back as that integer under a strict reader that refuses empty text, non-digits, a lone `-`, `-0` and leading zeros |
| Text.ParseIntCanonical | src/korp_endpoint/query_converter.py:131-132 | every text the strict reader accepts is the decimal form of the integer it reads, so decimal forms and accepted texts are in one-to-one correspondence |
| CqlConverter.Cql2Cqp | src/korp_endpoint/query_converter.py:26-67 | a triple fails as an unsupported boolean operator with the operator as details; a search clause always succeeds; any other node cannot be processed |
| CqlConverter.WordConstraintsAppend | src/korp_endpoint/query_converter.py:63 | the constraints of two term lists concatenated are the two outputs concatenated |
| CqlConverter.SingleWord | src/korp_endpoint/query_converter.py:57-59 | a term holding exactly one word, with any white space around it, gives `[word = '<lower(word)>']`, quotes kept |
| CqlConverter.SeveralWords | src/korp_endpoint/query_converter.py:57-63 | a term holding any other number of words, separated by any white space, gives one constraint per word, lower-cased and quote-stripped, in order; with SingleWord this covers every term |
| CqlConverter.JoinedWords | src/korp_endpoint/query_converter.py:57-63 | words joined by single spaces give one constraint per given word, in order |
| CqlConverter.BlankTerm | src/korp_endpoint/query_converter.py:57-63 | a term of only white space gives the empty query |
| CqlConverter.OneWordExample | src/korp_endpoint/query_converter.py:57-59 | " Katze" gives `[word = 'katze']` |
| FcsConverter.Occurrences | src/korp_endpoint/query_converter.py:127-132 | the suffix ends with a space; it is exactly " " iff min = max = 1, otherwise braced; it holds a comma iff min differs from max |
| FcsConverter.OccurrencesRoundTrip | src/korp_endpoint/query_converter.py:127-132 | reading the suffix back with the strict reader gives the segment's (min, max), so distinct bounds give distinct suffixes |
| FcsConverter.OccurrencesCanonical | src/korp_endpoint/query_converter.py:127-132 | every text the strict suffix reader accepts (" ", `{n} ` with n other than 1, `{m,n} ` with m and n distinct, all in canonical decimal) is the suffix of the bounds it reads: suffixes and bounds correspond one to one |
| FcsConverter.OccurrencesExamples | src/korp_endpoint/query_converter.py:127-132 | (1,1) gives " ", (2,2) gives "{2} ", (1,3) gives "{1,3} " |
| FcsConverter.FlagLetters | src/korp_endpoint/query_converter.py:189-197 | the flag letters are drawn from c, l, d, in that order |
| FcsConverter.FlagSuffix | src/korp_endpoint/query_converter.py:187-198 | empty iff no flag other than CASE_SENSITIVE is set, otherwise ` %` followed by the letters |
| FcsConverter.FlagSuffixRoundTrip | src/korp_endpoint/query_converter.py:187-198 | the suffix encodes exactly the flags except CASE_SENSITIVE |
| FcsConverter.PosAlternativesRoundTrip | src/korp_endpoint/query_converter.py:174 | several candidates become a parenthesised bar-separated alternation that splits back into the candidates in order |
| FcsConverter.TranslateOperator | src/korp_endpoint/query_converter.py:179-180 | the comparison is `!=` exactly for NOT_EQUALS and `=` exactly for EQUALS |
| FcsConverter.TranslateOperatorW | src/korp_endpoint/query_converter.py:183-184 | the containment test is `not contains` exactly for NOT_EQUALS and `contains` exactly for EQUALS |
| FcsConverter.PosValue | src/korp_endpoint/query_converter.py:174 | a single candidate is used as it is; several give a text opened by `(` and closed by `)` |
| FcsConverter.WordLayerFilterReadBack | src/korp_endpoint/query_converter.py:201-206 | the word-layer filter's first word is the CQP attribute, `word` for `text` and `token` and the identifier otherwise; it ends with the closing quote and a suffix that reads back as exactly the requested flags except CASE_SENSITIVE |
| FcsConverter.LemmaLayerFilterReadBack | src/korp_endpoint/query_converter.py:209-210 | the lemma-layer filter's first word is the layer identifier; it ends with the closing quote and a suffix that reads back as exactly the requested flags except CASE_SENSITIVE |
| FcsConverter.UnsupportedExpressions | src/korp_endpoint/query_converter.py:145-151 | a simple expression is refused as too complex exactly when its layer is not one of `text`, `token`, `word`, `lemma`, `pos` or it carries a qualifier |
| FcsConverter.OperatorsDistinct | src/korp_endpoint/query_converter.py:179-184 | `=`/`!=` and `contains`/`not contains` are distinct per operator, and the negated containment test is `not ` plus the positive one |
| FcsConverter.TranslatePos | src/korp_endpoint/query_converter.py:172-176 | succeeds iff `toSUC` does, with `toSUC`'s error otherwise |
| FcsConverter.TransformExpression | src/korp_endpoint/query_converter.py:144-169 | succeeds iff the expression is simple, supported and (for `pos`) a known tag; an unsupported one is too complex; an unknown tag is a syntax error; a non-simple one is an internal error |
| FcsConverter.WordLayerNames | src/korp_endpoint/query_converter.py:201-206 | `text`, `token` and `word` translate identically, to `word <op> '<regex>'<flags>` |
| FcsConverter.LemmaLayer | src/korp_endpoint/query_converter.py:162-163 | a `lemma` expression becomes `lemma contains` for `=` and `lemma not contains` for `!=`, then the quoted pattern and the flag suffix |
| FcsConverter.LemmaExample | src/korp_endpoint/query_converter.py:209-210 | `lemma != "hus"` gives `lemma not contains 'hus'` |
| FcsConverter.PosCandidates | src/korp_endpoint/query_converter.py:156-176 | a `pos` constraint offers exactly the table's candidates, one as it is or several as an alternation that splits back into them |
| FcsConverter.AdjectiveExample | src/korp_endpoint/query_converter.py:172-176 | `pos != "adj"/c` becomes exactly `pos != '(JJ\|PC\|RO)'`, the flag dropped |
| FcsConverter.UnknownTagExample | src/korp_endpoint/query_converter.py:156-161 | `pos = "Foo"` fails as an unknown UD-17 tag naming `Foo` |
| FcsConverter.PosIgnoresFlags | src/korp_endpoint/query_converter.py:156-161 | the regex flags of a `pos` expression do not change its translation |
| FcsConverter.TransformBoolOp | src/korp_endpoint/query_converter.py:135-141 | succeeds iff both operands are translatable, giving the left translation, the separator and the right translation; otherwise the first failing operand's error |
| FcsConverter.TransformSegment | src/korp_endpoint/query_converter.py:107-124 | AND gives both operand translations joined by an ampersand in brackets, OR joined by a bar, neither with a suffix; a simple segment gives its expression in brackets followed by the suffix of its bounds; a wildcard gives ` []` and the suffix; any other expression is too complex |
| FcsConverter.AndOrDistinct | src/korp_endpoint/query_converter.py:109-112 | AND and OR of the same translatable operands give different queries, an ampersand and a bar at the same position |
| FcsConverter.WordSegmentExample | src/korp_endpoint/query_converter.py:114-117 | `word = "dina"` with bounds (1,1) gives `[word = 'dina'] ` |
| FcsConverter.WildcardExample | src/korp_endpoint/query_converter.py:114-119 | a wildcard with bounds (2,3) gives ` []{2,3} ` |
| FcsConverter.SegmentSucceeds | src/korp_endpoint/query_converter.py:107-124 | when each segment kind translates: AND/OR iff both operands do, simple iff the expression does, wildcard always |
| FcsConverter.BooleanSegmentIgnoresOccurrences | src/korp_endpoint/query_converter.py:109-112 | an AND/OR segment is bracketed and does not depend on its bounds |
| FcsConverter.SegmentCarriesOccurrences | src/korp_endpoint/query_converter.py:114-119 | a simple or wildcard segment ends with the suffix of its bounds, which reads back as those bounds; a wildcard is ` []` plus the suffix |
| FcsConverter.SequenceSucceeds | src/korp_endpoint/query_converter.py:99-104 | a sequence translates exactly when every segment child does, and a failing sequence fails with the failure of one of its segment children |
| FcsConverter.SegmentsOf | src/korp_endpoint/query_converter.py:101-103 | the filtered children are all segments |
| FcsConverter.SegmentsOfWellFormed | src/korp_endpoint/query_converter.py:99-104 | the filtered children are well formed and drawn from the children |
| FcsConverter.SequenceSkipsNonSegments | src/korp_endpoint/query_converter.py:99-104 | translating only the segment children gives the same result as translating all children |
| FcsConverter.SequenceAppend | src/korp_endpoint/query_converter.py:99-104 | translating a sequence concatenates the translations of its parts, the first failure winning |
| FcsConverter.Fcs2Cqp | src/korp_endpoint/query_converter.py:73-96 | a sequence or segment root is translated as such; any other root is too complex |
| FcsConverter.SegmentAsSequence | src/korp_endpoint/query_converter.py:89-92 | a bare segment and a one-segment sequence translate alike |
| Spans.TokenSpansLayout | src/korp_endpoint/endpoint.py:147-157 | a token gets a word span, a part-of-speech span exactly when `fromSUC` knows its tag (with the first candidate), and a lemma span, all over `[start, start + len(word)]` |
| Spans.AddSpans | src/korp_endpoint/endpoint.py:145-158 | the loop adds the spans of the token range in order and returns the offset after the last token |
| Spans.NextStartGrows | src/korp_endpoint/endpoint.py:148-157 | each token advances the offset by at least one |
| Spans.NextStartSplit | src/korp_endpoint/endpoint.py:160-169 | laying out two adjacent token ranges one after the other is laying out their union |
| Spans.TokenWordSpan | src/korp_endpoint/endpoint.py:148-149 | each token contributes exactly one word span |
| Spans.WordLayerOfRun | src/korp_endpoint/endpoint.py:145-158 | the word layer of a range lists each token once, in order, at its offset |
| Spans.RecordWordSpansOfRuns | src/korp_endpoint/endpoint.py:160-169 | the word layer of a record is the word layers of the three runs, in order |
| Spans.RecordWordLayer | src/korp_endpoint/endpoint.py:160-169 | the word layer of a record lists every token of the row in order, from offset 1, highlighting exactly the match |
| Spans.WriteRecordSpans | src/korp_endpoint/endpoint.py:160-169 | the record writer's three `_add_spans` calls produce the record's spans (corrected guard) |
| Spans.WrittenRecordSpans | src/korp_endpoint/endpoint.py:160-169 | as written, the spans agree with the intended ones whenever the match does not start at token 1 |
| Spans.WriteRecordSpansAsWritten | src/korp_endpoint/endpoint.py:160-169 | the three `_add_spans` calls with the guard as written produce the as-written spans, which are the intended ones unless the match starts at token 1 |
| Spans.WrittenDropsFirstToken | src/korp_endpoint/endpoint.py:161-162 | as written, a match starting at token 1 loses token 0 and is laid out from offset 1 |
| ResultSets.KorpSearchResultSet.constructor | src/korp_endpoint/endpoint.py:74-83 | start record at least 1, cursor just before it, the page end and record count from the request or 250 |
| ResultSets.KorpSearchResultSet.TotalRecordCount | src/korp_endpoint/endpoint.py:85-88 | the hit count, or -1 without a result |
| ResultSets.KorpSearchResultSet.RecordCount | src/korp_endpoint/endpoint.py:90-96 | the hit count capped at the page end, or 0 without a result or with a negative count |
| ResultSets.KorpSearchResultSet.RecordSchemaIdentifier | src/korp_endpoint/endpoint.py:101-106 | the requested schema when one is given, else the CLARIN-FCS schema; never empty |
| ResultSets.KorpSearchResultSet.SurrogateDiagnostic | src/korp_endpoint/endpoint.py:119-129 | fails exactly when another schema than CLARIN-FCS was requested, naming it; otherwise no diagnostic |
| ResultSets.KorpSearchResultSet.KwicIndex | src/korp_endpoint/endpoint.py:137 | under the class invariant the KWIC row index is -1 before the first record and never beyond the row of the last record the cursor may reach |
| ResultSets.KorpSearchResultSet.NextRecord | src/korp_endpoint/endpoint.py:108-114 | advances the cursor by one iff it is below the record count, keeping the class invariant; the first advance points at KWIC row 0 |
| ResultSets.KorpSearchResultSet.WriteRecord | src/korp_endpoint/endpoint.py:137-169 | the spans written for the KWIC row under the cursor are the as-written spans of that row, and its intended record spans unless the match starts at token 1 |
| SearchEngine.TranslateQuery | src/korp_endpoint/endpoint.py:261-278 | CQL goes to `cql2cqp`, FCS-QL to `fcs2cqp`; any other query type cannot be processed |
| SearchEngine.OnlyKnownQueryTypes | src/korp_endpoint/endpoint.py:261-278 | only CQL and FCS-QL queries yield a CQP query; a CQL query does so iff it is a search clause |

## Left out

- Unicode: `lower`, `upper`, `split()` and `isspace` are modelled on ASCII only. Non-ASCII case mappings and white space are not captured.
- Python's text form of a node (`{node}` in the unknown-CQL-node message, the query type in the unsupported-query-type message) is a string parameter.
- The CQL and FCS-QL parsers are out of scope; the model starts from their trees. Every FCS-QL node kind other than those the translator distinguishes is one `Other` constructor.
- `FcsConverter.Expression`: the operator has only the two values `=` and `!=` (the parser's other operators never pass the guard at query_converter.py:148-149 anyway), so that part of the guard always holds.
- `FcsConverter.Fcs2Cqp` and `SearchEngine.TranslateQuery`: the two-operand `assert` at query_converter.py:138-140 is a precondition; its `AssertionError` is not modelled.
- `Spans.AddSpans`: requires a range with `lo <= hi`; all three calls in `write_record` have one once the KWIC row is well formed.
- `ResultSets.KorpSearchResultSet.NextRecord`: requires a Korp result; the source raises a `TypeError` or `KeyError` without one.
- `ResultSets.KorpSearchResultSet.SurrogateDiagnostic`: reads the `raise SRUDiagnostic(...)` at endpoint.py:124 at face value, as an error that ends the call, and assumes the SRU library's `SRUDiagnostic` is an exception class. If it is not, Python would raise a `TypeError` there instead. The declared return type `Optional[SRUDiagnostic]` suggests that returning the diagnostic may have been meant; the model does not capture either alternative.
- `ResultSets.KorpSearchResultSet.WriteRecord`: requires the cursor's KWIC row to exist; Python's negative list indexing (before the first `next_record`) is not modelled.
- `write_record` XML output: the record writer's resource id (`corpus-position`, endpoint.py:142), the XML writers and the hits/advanced data views are left out. The spans are returned as a sequence instead of being handed to the data view helper.
- `get_result_count_precision` (a constant) and `get_record_identifier` (always `None`) are not modelled.
- The rest of `search`: the Korp HTTP request, corpus selection and result-set construction (endpoint.py:280 on) are I/O and are left out. So are endpoint description loading, `do_init`, `korp.py`, `app.py` and `__main__.py`.
- The record count is the page end (`start - 1 + maximumRecords`) capped at the hit count, not the number of records on the page; the model states it as written.

## Findings

| source | as written | input that shows it | evidently intended | confidence | as-written member | corrected member |
|---|---|---|---|---|---|---|
| src/korp_endpoint/endpoint.py:161 | the tokens before the match are written only when `match["start"] != 1` | a KWIC row whose match starts at token 1 (e.g. tokens "a", "b" with match [1, 2)): token 0 gets no spans and the match is laid out from offset 1 | skip the leading run only when it is empty (`match["start"] != 0`), so that every token is written at its offset | not executed | Spans.WrittenRecordSpans, Spans.WriteRecordSpansAsWritten, Spans.WrittenDropsFirstToken | Spans.WriteRecordSpans, Spans.RecordWordLayer |
