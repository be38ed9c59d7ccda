/** `cql2cqp`: translation of a parsed CQL (OASIS searchRetrieve Part 5) query
    into a CQP query string (src/korp_endpoint/query_converter.py:26-67).
    Only a bare search clause is supported; its term is split into words and
    every word becomes one `[word = '...']` token constraint. */
module CqlConverter {
  import opened Results
  import opened Text

  /** The root of a parsed CQL query. */
  datatype CqlNode =
    | CqlTriple(operator: string, left: CqlNode, right: CqlNode)
    | CqlSearchClause(index: string, relation: string, term: string)
    /** any node kind the translator does not recognise */
    | CqlOtherNode(description: string)

  /** One CQP token constraint on the word layer. */
  function WordConstraint(t: string): string {
    "[word = '" + t + "']"
  }

  /** The word constraints of `ts`, in order, with no separator. */
  function WordConstraints(ts: seq<string>): string
    decreases |ts|
  {
    if ts == [] then "" else WordConstraint(ts[0]) + WordConstraints(ts[1..])
  }

  /** The quote-stripped form of every term (`term.strip("\"'")`). */
  function StripAll(ts: seq<string>): (r: seq<string>)
    ensures |r| == |ts| && forall k :: 0 <= k < |ts| ==> r[k] == StripQuotes(ts[k])
  {
    seq(|ts|, k requires 0 <= k < |ts| => StripQuotes(ts[k]))
  }

  /** `cql2cqp`. A triple root fails with the unsupported-boolean-operator
      diagnostic whose details are the operator; a search clause always succeeds;
      any other node cannot be processed (`description` is the node's text form). */
  function Cql2Cqp(node: CqlNode): (r: Result<string>)
    ensures node.CqlTriple? ==> r.Err? && r.failure.Diagnostic? && r.failure.code == UnsupportedBooleanOperator
                                && r.failure.details == Some(node.operator)
    ensures node.CqlSearchClause? <==> r.Ok?
    ensures node.CqlOtherNode? ==> r.Err? && r.failure.Diagnostic? && r.failure.code == CannotProcessQueryReasonUnknown
  {
    match node
    case CqlTriple(operator, _, _) =>
      Err(Diagnostic(UnsupportedBooleanOperator, Some(operator), Some("Unsupported Boolean operator: " + operator)))
    case CqlSearchClause(_, _, term) =>
      var terms := Words(Lower(term));
      if |terms| == 1 then Ok(WordConstraint(terms[0]))
      else Ok(WordConstraints(StripAll(terms)))
    case CqlOtherNode(description) =>
      Err(Diagnostic(CannotProcessQueryReasonUnknown, Some("unknown cql node: " + description), None))
  }

  /** The constraints of a concatenation are the concatenation of the constraints. */
  lemma {:induction false} WordConstraintsAppend(a: seq<string>, b: seq<string>)
    ensures WordConstraints(a + b) == WordConstraints(a) + WordConstraints(b)
    decreases |a|
  {
    if a == [] {
      assert a + b == b;
    } else {
      assert (a + b)[1..] == a[1..] + b;
      WordConstraintsAppend(a[1..], b);
    }
  }

  /** A term holding exactly one word, whatever white space surrounds it, gives one
      constraint on that word lower-cased, with its quotes kept. */
  lemma SingleWord(index: string, relation: string, term: string)
    requires |Words(term)| == 1
    ensures Cql2Cqp(CqlSearchClause(index, relation, term)) == Ok("[word = '" + Lower(Words(term)[0]) + "']")
  {
    WordsLower(term);
  }

  /** A term holding any other number of words, separated by any white space, gives one
      constraint per word, lower-cased and stripped of surrounding quotes, in order. With
      `SingleWord` this states the translation of every search term. */
  lemma SeveralWords(index: string, relation: string, term: string)
    requires |Words(term)| != 1
    ensures Cql2Cqp(CqlSearchClause(index, relation, term)) == Ok(WordConstraints(StripAll(LowerAll(Words(term)))))
  {
    WordsLower(term);
  }

  /** Words separated by single spaces come back as those words. */
  lemma JoinedWords(index: string, relation: string, ws: seq<string>)
    requires |ws| != 1
    requires forall k :: 0 <= k < |ws| ==> IsWord(ws[k])
    ensures Cql2Cqp(CqlSearchClause(index, relation, JoinWith(ws, ' ')))
         == Ok(WordConstraints(StripAll(LowerAll(ws))))
  {
    WordsOfJoin(ws);
    SeveralWords(index, relation, JoinWith(ws, ' '));
  }

  /** A term made only of white space yields the empty query string. */
  lemma BlankTerm(index: string, relation: string, term: string)
    requires forall i :: 0 <= i < |term| ==> IsSpace(term[i])
    ensures Cql2Cqp(CqlSearchClause(index, relation, term)) == Ok("")
  {
    NoWordsInBlank(Lower(term));
  }

  /** " Katze" gives `[word = 'katze']`. */
  lemma OneWordExample()
    ensures Cql2Cqp(CqlSearchClause("", "=", " Katze")) == Ok(WordConstraint("katze"))
  {
    assert Words(" Katze") == ["Katze"] by {
      assert " Katze" == " " + JoinWith(["Katze"], ' ');
      WordsOfLeadingSpaces(" ", JoinWith(["Katze"], ' '));
      WordsOfJoin(["Katze"]);
    }
    assert Lower("Katze") == "katze";
    SingleWord("", "=", " Katze");
  }
}
