/** `fcs2cqp`: translation of a parsed FCS-QL query (the advanced query language
    of the CLARIN Federated Content Search Core 2.0 specification) into a CQP
    query string for the IMS Open Corpus Workbench
    (src/korp_endpoint/query_converter.py:73-210). */
module FcsConverter {
  import opened Results
  import opened Text
  import PosTags

  datatype Operator = Equals | NotEquals

  datatype RegexFlag = CaseInsensitive | CaseSensitive | LiteralMatching | IgnoreDiacritics

  /** The expression of a query segment. A `Simple` expression constrains one
      layer; `regexFlags` is empty when the query gives none. */
  datatype Expression =
    | Simple(identifier: string, qualifier: Option<string>, operator: Operator, regex: string, regexFlags: set<RegexFlag>)
    | And(operands: seq<Expression>)
    | Or(operands: seq<Expression>)
    | Wildcard
    /** a group, a negation, or any other expression kind */
    | OtherExpression(kind: string)

  /** A node of the parsed query. */
  datatype QueryNode =
    | Sequence(children: seq<QueryNode>)
    | Segment(minOccurs: int, maxOccurs: int, expression: Expression)
    /** a disjunction, a group, a within-query, or any other node kind */
    | OtherQuery(kind: string)

  /** The failure of a root that is neither a sequence nor a segment. */
  const UnsupportedQuery: Failure :=
    Diagnostic(QueryTooComplex, None, Some("Endpoint only supports sequences or single segment queries"))

  /** The failure of a segment whose expression is none of AND, OR, simple or wildcard. */
  const UnsupportedSegment: Failure :=
    Diagnostic(QueryTooComplex, None, Some("Endpoint only supports sequences or single segment expressions"))

  /** The failure of a simple expression outside the supported layers and operators; the text is the details argument. */
  const UnsupportedExpression: Failure :=
    Diagnostic(QueryTooComplex, Some("Endpoint only supports 'text', 'word', 'lemma', and 'pos' layers, the '=' and '!=' operators and no regex flags"), None)

  /** The layers the endpoint can search. */
  const Layers: set<string> := {"text", "token", "word", "lemma", "pos"}

  /** The Python `assert` of `_transform_expression_bool_op`: a boolean expression has exactly two operands. */
  predicate BinaryOperands(e: Expression) {
    (e.And? || e.Or?) ==> |e.operands| == 2
  }

  /** Every segment among `children` satisfies the operand assertion. */
  predicate SegmentsWellFormed(children: seq<QueryNode>) {
    forall i :: 0 <= i < |children| ==> (children[i].Segment? ==> BinaryOperands(children[i].expression))
  }

  /** The trees on which the translator does not fail an assertion. */
  predicate WellFormed(q: QueryNode) {
    match q
    case Sequence(children) => SegmentsWellFormed(children)
    case Segment(_, _, e) => BinaryOperands(e)
    case OtherQuery(_) => true
  }

  // ---------------------------------------------------------------------
  // quantifiers

  /** `_transform_occurrences`: the CQP repetition suffix of a segment. */
  function Occurrences(minOccurs: int, maxOccurs: int): (r: string)
    ensures r != [] && r[|r| - 1] == ' '
    ensures r == " " <==> minOccurs == maxOccurs == 1
    ensures r != " " ==> r[0] == '{' && r[|r| - 2] == '}'
    ensures ',' in r <==> minOccurs != maxOccurs
  {
    if minOccurs == maxOccurs == 1 then " "
    else if minOccurs == maxOccurs then "{" + IntToDecimal(minOccurs) + "} "
    else "{" + IntToDecimal(minOccurs) + "," + IntToDecimal(maxOccurs) + "} "
  }

  /** The three forms of the suffix: once, an exact count, a range. */
  lemma OccurrencesExamples()
    ensures Occurrences(1, 1) == " "
    ensures Occurrences(2, 2) == "{2} "
    ensures Occurrences(1, 3) == "{1,3} "
  {
    assert IntToDecimal(1) == "1" && IntToDecimal(2) == "2" && IntToDecimal(3) == "3";
  }

  /** A strict reading of a CQP repetition suffix back into its bounds: " " is once,
      "{n} " is n times for n other than 1, "{m,n} " is m to n times for m other than n,
      each count in canonical decimal form; anything else is not a suffix. */
  function ParseOccurrences(s: string): Option<(int, int)> {
    if s == " " then Some((1, 1))
    else if |s| >= 3 && s[0] == '{' && s[|s| - 2] == '}' && s[|s| - 1] == ' ' then
      ParseBounds(s[1..|s| - 2])
    else None
  }

  /** The bounds between the braces: one count, or two different ones separated by the first comma. */
  function ParseBounds(inner: string): Option<(int, int)> {
    var lo := PrefixBefore(inner, ',');
    if |lo| == |inner| then
      var n := ParseInt(inner);
      if n.Some? && n.value != 1 then Some((n.value, n.value)) else None
    else
      var m := ParseInt(lo);
      var n := ParseInt(inner[|lo| + 1..]);
      if m.Some? && n.Some? && m.value != n.value then Some((m.value, n.value)) else None
  }

  /** The suffix loses nothing: reading it back gives the segment's bounds, so
      different bounds always give different suffixes. */
  lemma OccurrencesRoundTrip(minOccurs: int, maxOccurs: int)
    ensures ParseOccurrences(Occurrences(minOccurs, maxOccurs)) == Some((minOccurs, maxOccurs))
  {
    if minOccurs == maxOccurs == 1 {
    } else if minOccurs == maxOccurs {
      ExactCountRoundTrip(minOccurs);
    } else {
      RangeRoundTrip(minOccurs, maxOccurs);
    }
  }

  /** The other direction: every string the strict reading accepts is the suffix of the
      bounds it reads, so the suffix of each pair of bounds is spelled in exactly one way. */
  lemma OccurrencesCanonical(s: string)
    requires ParseOccurrences(s).Some?
    ensures Occurrences(ParseOccurrences(s).value.0, ParseOccurrences(s).value.1) == s
  {
    if s != " " {
      var inner := s[1..|s| - 2];
      assert s == "{" + inner + "} ";
      BoundsCanonical(inner);
    }
  }

  /** Whatever the strict reading accepts between the braces is what `Occurrences` puts there. */
  lemma BoundsCanonical(inner: string)
    requires ParseBounds(inner).Some?
    ensures Occurrences(ParseBounds(inner).value.0, ParseBounds(inner).value.1) == "{" + inner + "} "
  {
    var lo := PrefixBefore(inner, ',');
    if |lo| == |inner| {
      assert ParseBounds(inner) == Some((ParseInt(inner).value, ParseInt(inner).value));
      ExactCanonical(inner);
    } else {
      var hi := inner[|lo| + 1..];
      assert ParseBounds(inner) == Some((ParseInt(lo).value, ParseInt(hi).value));
      PrefixBeforeSplit(inner, ',');
      RangeCanonical(lo, hi);
    }
  }

  lemma ExactCanonical(a: string)
    requires ParseInt(a).Some? && ParseInt(a).value != 1
    ensures Occurrences(ParseInt(a).value, ParseInt(a).value) == "{" + a + "} "
  {
    ParseIntCanonical(a);
  }

  lemma RangeCanonical(a: string, b: string)
    requires ParseInt(a).Some? && ParseInt(b).Some? && ParseInt(a).value != ParseInt(b).value
    ensures Occurrences(ParseInt(a).value, ParseInt(b).value) == "{" + (a + [','] + b) + "} "
  {
    ParseIntCanonical(a);
    ParseIntCanonical(b);
    assert "{" + a + "," + b + "} " == "{" + (a + [','] + b) + "} ";
  }

  /** Reading a braced suffix reads the text between the braces. */
  lemma ParseBraced(inner: string)
    ensures ParseOccurrences("{" + inner + "} ") == ParseBounds(inner)
  {
    var s := "{" + inner + "} ";
    assert s[1..|s| - 2] == inner;
  }

  lemma ExactCountRoundTrip(n: int)
    requires n != 1
    ensures ParseOccurrences("{" + IntToDecimal(n) + "} ") == Some((n, n))
  {
    var a := IntToDecimal(n);
    ParseBraced(a);
    IntToDecimalRoundTrip(n);
    PrefixBeforeAbsent(a, ',');
  }

  lemma RangeRoundTrip(lo: int, hi: int)
    requires lo != hi
    ensures ParseOccurrences("{" + IntToDecimal(lo) + "," + IntToDecimal(hi) + "} ") == Some((lo, hi))
  {
    var a := IntToDecimal(lo);
    var b := IntToDecimal(hi);
    var inner := a + "," + b;
    assert "{" + a + "," + b + "} " == "{" + inner + "} ";
    ParseBraced(inner);
    assert ParseBounds(inner) == Some((lo, hi)) by {
      IntToDecimalRoundTrip(lo);
      IntToDecimalRoundTrip(hi);
      assert inner == a + [','] + b;
      PrefixBeforeFree(a, ',', b);
      assert inner[|a| + 1..] == b;
    }
  }

  // ---------------------------------------------------------------------
  // regex flags

  /** Letters of the CQP flag suffix, always in the order c, l, d. */
  function FlagLetters(flags: set<RegexFlag>): (r: string)
    ensures forall i :: 0 <= i < |r| ==> r[i] in "cld"
    ensures forall i, j :: 0 <= i < j < |r| ==> FlagRank(r[i]) < FlagRank(r[j])
  {
    (if CaseInsensitive in flags then "c" else "")
    + (if LiteralMatching in flags then "l" else "")
    + (if IgnoreDiacritics in flags then "d" else "")
  }

  /** Position of a flag letter in the emission order. */
  function FlagRank(c: char): nat {
    if c == 'c' then 0 else if c == 'l' then 1 else 2
  }

  /** `_translate_flags`: empty exactly when no flag other than CASE_SENSITIVE is set. */
  function FlagSuffix(flags: set<RegexFlag>): (r: string)
    ensures r == "" <==> flags <= {CaseSensitive}
    ensures r != "" ==> r == " %" + FlagLetters(flags)
  {
    var letters := FlagLetters(flags);
    assert flags <= {CaseSensitive} <==> letters == "" by {
      if letters == "" {
        forall f | f in flags ensures f == CaseSensitive {
          assert f != CaseInsensitive && f != LiteralMatching && f != IgnoreDiacritics;
        }
      }
    }
    if letters == "" then "" else " %" + letters
  }

  /** A reading of a flag suffix back into the flags it stands for. */
  function ParseFlagSuffix(s: string): set<RegexFlag> {
    (if 'c' in s then {CaseInsensitive} else {})
    + (if 'l' in s then {LiteralMatching} else {})
    + (if 'd' in s then {IgnoreDiacritics} else {})
  }

  /** The suffix keeps every flag except CASE_SENSITIVE, which CQP has no letter for. */
  lemma FlagSuffixRoundTrip(flags: set<RegexFlag>)
    ensures ParseFlagSuffix(FlagSuffix(flags)) == flags - {CaseSensitive}
  {
    var s := FlagSuffix(flags);
    var letters := FlagLetters(flags);
    assert 'c' in s <==> CaseInsensitive in flags by {
      if CaseInsensitive in flags { assert s[2] == 'c'; }
    }
    assert 'l' in s <==> LiteralMatching in flags by {
      if LiteralMatching in flags {
        var k := if CaseInsensitive in flags then 1 else 0;
        assert letters[k] == 'l';
        assert s[2 + k] == 'l';
      }
    }
    assert 'd' in s <==> IgnoreDiacritics in flags by {
      if IgnoreDiacritics in flags {
        assert letters[|letters| - 1] == 'd';
        assert s[|s| - 1] == 'd';
      }
    }
    var p := ParseFlagSuffix(s);
    forall f ensures f in p <==> f in flags - {CaseSensitive} {
      match f
      case CaseInsensitive =>
      case LiteralMatching =>
      case IgnoreDiacritics =>
      case CaseSensitive =>
    }
  }

  // ---------------------------------------------------------------------
  // expressions

  /** `_translate_operator`. */
  function TranslateOperator(op: Operator): (r: string)
    ensures r == "!=" <==> op == NotEquals
    ensures r == "=" <==> op == Equals
  {
    assert "="[0] != "!="[0];
    match op
    case Equals => "="
    case NotEquals => "!="
  }

  /** Each operator has its own comparison and its own containment test, and the
      negated ones are the positive ones with a negation added. */
  lemma OperatorsDistinct()
    ensures TranslateOperator(Equals) == "=" && TranslateOperator(NotEquals) == "!="
    ensures TranslateOperatorW(Equals) == "contains" && TranslateOperatorW(NotEquals) == "not " + TranslateOperatorW(Equals)
    ensures forall a: Operator, b: Operator :: TranslateOperator(a) == TranslateOperator(b) ==> a == b
    ensures forall a: Operator, b: Operator :: TranslateOperatorW(a) == TranslateOperatorW(b) ==> a == b
  {
  }

  /** `_translate_operatorw`. */
  function TranslateOperatorW(op: Operator): (r: string)
    ensures r == "not contains" <==> op == NotEquals
    ensures r == "contains" <==> op == Equals
  {
    assert "contains"[0] != "not contains"[0];
    match op
    case Equals => "contains"
    case NotEquals => "not contains"
  }

  /** The value of a part-of-speech constraint: the only candidate, or all candidates as a
      parenthesised alternation in table order. */
  function PosValue(candidates: seq<string>): (r: string)
    requires candidates != []
    ensures |candidates| == 1 ==> r == candidates[0]
    ensures |candidates| >= 2 ==> |r| >= 2 && r[0] == '(' && r[|r| - 1] == ')'
  {
    if |candidates| == 1 then candidates[0] else "(" + JoinWith(candidates, '|') + ")"
  }

  /** The alternation lists exactly the candidates, in order, when no candidate contains `|`. */
  lemma PosAlternativesRoundTrip(candidates: seq<string>)
    requires |candidates| >= 2
    requires forall k :: 0 <= k < |candidates| ==> '|' !in candidates[k]
    ensures var v := PosValue(candidates); |v| >= 2 && v[0] == '(' && v[|v| - 1] == ')'
    ensures var v := PosValue(candidates); SplitOn(v[1..|v| - 1], '|') == candidates
  {
    var inner := JoinWith(candidates, '|');
    var v := "(" + inner + ")";
    assert v[1..|v| - 1] == inner;
    SplitOnJoin(candidates, '|');
  }

  /** `_translate_pos`: map the UPOS value to SUC and constrain the layer to the candidates. */
  function TranslatePos(layer: string, op: string, pos: string): (r: Result<string>)
    ensures r.Ok? <==> PosTags.ToSuc(pos).Ok?
    ensures r.Err? ==> r.failure == PosTags.UnknownUpos(pos)
  {
    var sucT :- PosTags.ToSuc(pos);
    Ok(layer + " " + op + " '" + PosValue(sucT) + "'")
  }

  /** `_translate_word_layer_filter`: `text` and `token` are searched on the `word` layer. */
  function WordLayerFilter(e: Expression): string
    requires e.Simple?
  {
    var layer := if e.identifier in {"text", "token"} then "word" else e.identifier;
    layer + " " + TranslateOperator(e.operator) + " '" + e.regex + "'" + FlagSuffix(e.regexFlags)
  }

  /** A word-layer filter names the CQP attribute first (`word` for `text` and `token`), and
      ends with the closing quote and exactly the requested flags. */
  lemma WordLayerFilterReadBack(e: Expression)
    requires e.Simple?
    ensures ' ' !in e.identifier ==>
      PrefixBefore(WordLayerFilter(e), ' ') == if e.identifier in {"text", "token"} then "word" else e.identifier
    ensures FilterEndsWithFlags(WordLayerFilter(e), e.regexFlags)
  {
    var layer := if e.identifier in {"text", "token"} then "word" else e.identifier;
    FilterLayout(layer, TranslateOperator(e.operator), e.regex, e.regexFlags);
  }

  /** `_translate_lemma_layer_filter`: lemmas are matched with `contains`. */
  function LemmaLayerFilter(e: Expression): string
    requires e.Simple?
  {
    e.identifier + " " + TranslateOperatorW(e.operator) + " '" + e.regex + "'" + FlagSuffix(e.regexFlags)
  }

  /** A lemma-layer filter names its layer first, and ends with the closing quote and exactly
      the requested flags. */
  lemma LemmaLayerFilterReadBack(e: Expression)
    requires e.Simple?
    ensures ' ' !in e.identifier ==> PrefixBefore(LemmaLayerFilter(e), ' ') == e.identifier
    ensures FilterEndsWithFlags(LemmaLayerFilter(e), e.regexFlags)
  {
    FilterLayout(e.identifier, TranslateOperatorW(e.operator), e.regex, e.regexFlags);
  }

  /** A filter closes its quoted regex and then carries exactly the flags that were asked for
      (case sensitivity being the default, it is not written). */
  predicate FilterEndsWithFlags(r: string, flags: set<RegexFlag>) {
    var q := |r| - |FlagSuffix(flags)|;
    && 1 <= q
    && r[q - 1] == '\''
    && ParseFlagSuffix(r[q..]) == flags - {CaseSensitive}
  }

  /** The layout shared by both filters: the attribute, a space, the comparison and the
      opening of the regex, its closing quote, then the flag suffix. */
  lemma FilterLayout(layer: string, op: string, regex: string, flags: set<RegexFlag>)
    ensures var r := layer + " " + op + " '" + regex + "'" + FlagSuffix(flags);
      && (' ' !in layer ==> PrefixBefore(r, ' ') == layer)
      && FilterEndsWithFlags(r, flags)
  {
    var f := FlagSuffix(flags);
    var r := layer + " " + op + " '" + regex + "'" + f;
    var rest := op + " '" + regex + "'" + f;
    assert r == layer + [' '] + rest;
    if ' ' !in layer {
      PrefixBeforeFree(layer, ' ', rest);
    }
    var q := |r| - |f|;
    assert r[q..] == f;
    assert r[q - 1] == '\'';
    FlagSuffixRoundTrip(flags);
  }

  /** The guard of `_transform_expression`: a known layer, no qualifier, `=` or `!=`. */
  predicate Supported(e: Expression)
    requires e.Simple?
  {
    // `Operator` has only the two operators the source accepts, so the last conjunct always holds.
    e.identifier in Layers && e.qualifier.None? && e.operator in {Equals, NotEquals}
  }

  /** The expressions `_transform_expression` translates without failing. */
  predicate Translatable(e: Expression) {
    && e.Simple?
    && Supported(e)
    && (e.identifier == "pos" ==> Upper(e.regex) in PosTags.Ud17ToSuc)
  }

  /** `_transform_expression`. It succeeds exactly on translatable expressions; an
      unsupported simple expression is too complex, an unknown part of speech is a
      syntax error, and a non-simple expression (only reachable as an operand of
      AND/OR) is the source's attribute error. */
  function TransformExpression(e: Expression): (r: Result<string>)
    ensures r.Ok? <==> Translatable(e)
    ensures !e.Simple? ==> r == Err(InternalError)
    ensures e.Simple? && !Supported(e) ==> r == Err(UnsupportedExpression)
    ensures e.Simple? && Supported(e) && e.identifier == "pos" && r.Err? ==> r == Err(PosTags.UnknownUpos(e.regex))
  {
    match e
    case Simple(identifier, qualifier, operator, regex, _) =>
      if Supported(e) then
        if identifier == "pos" then TranslatePos(identifier, TranslateOperator(operator), regex)
        else if identifier == "lemma" then Ok(LemmaLayerFilter(e))
        else Ok(WordLayerFilter(e))
      else Err(UnsupportedExpression)
    case _ => Err(InternalError)
  }

  /** `text`, `token` and `word` are three names of one layer: they translate identically. */
  lemma WordLayerNames(e: Expression)
    requires e.Simple? && e.identifier in {"text", "token", "word"}
    ensures TransformExpression(e) == TransformExpression(e.(identifier := "word"))
    ensures e.qualifier.None? ==>
      TransformExpression(e) == Ok("word" + " " + TranslateOperator(e.operator) + " '" + e.regex + "'" + FlagSuffix(e.regexFlags))
    ensures e.qualifier.Some? ==> TransformExpression(e) == Err(UnsupportedExpression)
  {
    var w := e.(identifier := "word");
    assert "word" !in {"text", "token"};
    assert e.identifier in Layers && w.identifier in Layers;
    assert e.identifier != "pos" && e.identifier != "lemma";
    assert WordLayerFilter(e) == WordLayerFilter(w);
  }

  /** A part-of-speech constraint offers exactly the SUC candidates of the tag, in table
      order: the only candidate as it is, several as an alternation that splits back into them. */
  lemma PosCandidates(e: Expression)
    requires e.Simple? && e.identifier == "pos" && e.qualifier.None?
    requires Upper(e.regex) in PosTags.Ud17ToSuc
    ensures var cands := PosTags.Ud17ToSuc[Upper(e.regex)];
      && cands != []
      && TransformExpression(e) == Ok("pos" + " " + TranslateOperator(e.operator) + " '" + PosValue(cands) + "'")
      && (|cands| == 1 ==> PosValue(cands) == cands[0])
      && (|cands| >= 2 ==> var v := PosValue(cands);
            |v| >= 2 && v[0] == '(' && v[|v| - 1] == ')' && SplitOn(v[1..|v| - 1], '|') == cands)
  {
    var cands := PosTags.Ud17ToSuc[Upper(e.regex)];
    PosTags.TablesHaveCandidates();
    assert e.identifier in Layers;
    if |cands| >= 2 {
      PosTags.NoBarInSucTags();
      PosAlternativesRoundTrip(cands);
    }
  }

  /** `[pos != "adj"/c]` asks for none of the three SUC adjective tags, and drops the flag. */
  lemma AdjectiveExample()
    ensures TransformExpression(Simple("pos", None, NotEquals, "adj", {CaseInsensitive}))
         == Ok("pos != '(JJ|PC|RO)'")
  {
    assert Upper("adj") == "ADJ";
    PosCandidates(Simple("pos", None, NotEquals, "adj", {CaseInsensitive}));
    AdjectiveFilter();
  }

  /** The filter text for the three SUC tags of `ADJ`, negated. */
  lemma AdjectiveFilter()
    ensures "pos" + " " + TranslateOperator(NotEquals) + " '" + PosValue(["JJ", "PC", "RO"]) + "'"
         == "pos != '(JJ|PC|RO)'"
  {
    assert JoinWith(["JJ", "PC", "RO"], '|') == "JJ|PC|RO";
    assert PosValue(["JJ", "PC", "RO"]) == "(JJ|PC|RO)";
  }

  /** The guard of `_transform_expression` spelled out: an expression is refused as
      unsupported exactly when it names a layer outside `text`, `token`, `word`, `lemma`
      and `pos`, or carries a qualifier. */
  lemma UnsupportedExpressions(e: Expression)
    requires e.Simple?
    ensures TransformExpression(e) == Err(UnsupportedExpression) <==>
      e.identifier !in {"text", "token", "word", "lemma", "pos"} || e.qualifier.Some?
  {
    assert e.operator in {Equals, NotEquals} by {
      match e.operator
      case Equals =>
      case NotEquals =>
    }
    assert Supported(e) <==> e.identifier in {"text", "token", "word", "lemma", "pos"} && e.qualifier.None?;
    if Supported(e) && e.identifier == "pos" && TransformExpression(e).Err? {
      assert TransformExpression(e).failure.code == QuerySyntaxError;
    }
  }

  /** A tag outside the UPOS table is a syntax error naming the tag as written. */
  lemma UnknownTagExample()
    ensures TransformExpression(Simple("pos", None, Equals, "Foo", {})) == Err(PosTags.UnknownUpos("Foo"))
  {
    assert Upper("Foo") == "FOO";
    assert "Foo" != "pos";
  }

  /** A `lemma` constraint is a containment test: `contains` for `=`, `not contains`
      for `!=`, followed by the pattern and the flag suffix. */
  lemma LemmaLayer(op: Operator, regex: string, flags: set<RegexFlag>)
    ensures TransformExpression(Simple("lemma", None, op, regex, flags))
         == Ok("lemma " + (if op == NotEquals then "not contains" else "contains") + " '" + regex + "'" + FlagSuffix(flags))
  {
    assert "lemma" in Layers && "lemma" != "pos";
    assert "lemma" + " " == "lemma ";
  }

  /** `[lemma != "hus"]` asks for lemmas not containing "hus". */
  lemma LemmaExample()
    ensures TransformExpression(Simple("lemma", None, NotEquals, "hus", {})) == Ok("lemma not contains 'hus'")
  {
    LemmaLayer(NotEquals, "hus", {});
    assert FlagSuffix({}) == "";
    assert "lemma " + "not contains" + " '" + "hus" + "'" + "" == "lemma not contains 'hus'";
  }

  /** A part-of-speech constraint never carries regex flags. */
  lemma PosIgnoresFlags(e: Expression, flags: set<RegexFlag>)
    requires e.Simple? && e.identifier == "pos"
    ensures TransformExpression(e.(regexFlags := flags)) == TransformExpression(e)
  {
  }

  // ---------------------------------------------------------------------
  // segments, sequences and the root

  /** `_transform_expression_bool_op`: both operands, left then right, joined by `sep`. */
  function TransformBoolOp(operands: seq<Expression>, sep: string): (r: Result<string>)
    requires |operands| == 2
    ensures r.Ok? <==> Translatable(operands[0]) && Translatable(operands[1])
    ensures r.Ok? ==> r.value == TransformExpression(operands[0]).value + sep + TransformExpression(operands[1]).value
    ensures r.Err? ==> r.failure == if !Translatable(operands[0]) then TransformExpression(operands[0]).failure
                                    else TransformExpression(operands[1]).failure
  {
    var left :- TransformExpression(operands[0]);
    var right :- TransformExpression(operands[1]);
    Ok(left + sep + right)
  }

  /** `_transform_query_segment`. */
  function TransformSegment(seg: QueryNode): (r: Result<string>)
    requires seg.Segment? && BinaryOperands(seg.expression)
    ensures seg.expression.And? ==> r == Bracketed(TransformBoolOp(seg.expression.operands, " & "))
    ensures seg.expression.Or? ==> r == Bracketed(TransformBoolOp(seg.expression.operands, " | "))
    ensures seg.expression.Simple? && r.Ok? ==>
      (TransformExpression(seg.expression).Ok? &&
       r.value == "[" + TransformExpression(seg.expression).value + "]" + Occurrences(seg.minOccurs, seg.maxOccurs))
    ensures seg.expression.Simple? && r.Err? ==> r == TransformExpression(seg.expression)
    ensures seg.expression.Wildcard? ==> r == Ok(" []" + Occurrences(seg.minOccurs, seg.maxOccurs))
    ensures seg.expression.OtherExpression? ==> r == Err(UnsupportedSegment)
  {
    var occ := Occurrences(seg.minOccurs, seg.maxOccurs);
    match seg.expression
    case And(operands) =>
      var body :- TransformBoolOp(operands, " & ");
      Ok("[" + body + "]")
    case Or(operands) =>
      var body :- TransformBoolOp(operands, " | ");
      Ok("[" + body + "]")
    case Simple(_, _, _, _, _) =>
      var body :- TransformExpression(seg.expression);
      Ok("[" + body + "]" + occ)
    case Wildcard =>
      Ok(" []" + occ)
    case OtherExpression(_) =>
      Err(UnsupportedSegment)
  }

  /** A boolean body in square brackets, without a repetition suffix. */
  function Bracketed(body: Result<string>): Result<string> {
    if body.Ok? then Ok("[" + body.value + "]") else body
  }

  /** AND and OR of the same operands translate differently: the operator between the
      two constraints is `&` for AND and `|` for OR. */
  lemma AndOrDistinct(minOccurs: int, maxOccurs: int, operands: seq<Expression>)
    requires |operands| == 2 && Translatable(operands[0]) && Translatable(operands[1])
    ensures var a := TransformSegment(Segment(minOccurs, maxOccurs, And(operands)));
            var o := TransformSegment(Segment(minOccurs, maxOccurs, Or(operands)));
            var k := |TransformExpression(operands[0]).value| + 2;
      && a.Ok? && o.Ok? && k < |a.value| && k < |o.value|
      && a.value[k] == '&' && o.value[k] == '|' && a.value != o.value
  {
    var l := TransformExpression(operands[0]).value;
    var rr := TransformExpression(operands[1]).value;
    var a := "[" + (l + " & " + rr) + "]";
    var o := "[" + (l + " | " + rr) + "]";
    assert a[|l| + 2] == '&';
    assert o[|l| + 2] == '|';
  }

  /** A word segment with bounds (1,1) is the constraint in brackets and a single space. */
  lemma WordSegmentExample()
    ensures TransformSegment(Segment(1, 1, Simple("word", None, Equals, "dina", {}))) == Ok("[word = 'dina'] ")
  {
    var e := Simple("word", None, Equals, "dina", {});
    assert "word" in Layers && "word" !in {"text", "token"};
    assert FlagLetters({}) == "";
    assert TransformExpression(e) == Ok("word" + " " + "=" + " '" + "dina" + "'" + "");
    assert "[" + ("word" + " " + "=" + " '" + "dina" + "'" + "") + "]" + " " == "[word = 'dina'] ";
  }

  /** A wildcard with bounds (2,3) is ` []{2,3} `. */
  lemma WildcardExample()
    ensures TransformSegment(Segment(2, 3, Wildcard)) == Ok(" []{2,3} ")
  {
    assert IntToDecimal(2) == "2" && IntToDecimal(3) == "3";
    assert Occurrences(2, 3) == "{2,3} ";
    assert " []" + "{2,3} " == " []{2,3} ";
  }

  /** When a segment translates: a boolean segment needs two translatable operands,
      a simple one a translatable expression, a wildcard always translates. */
  lemma SegmentSucceeds(seg: QueryNode)
    requires seg.Segment? && BinaryOperands(seg.expression)
    ensures TransformSegment(seg).Ok? <==>
      match seg.expression
      case And(operands) => Translatable(operands[0]) && Translatable(operands[1])
      case Or(operands) => Translatable(operands[0]) && Translatable(operands[1])
      case Simple(_, _, _, _, _) => Translatable(seg.expression)
      case Wildcard => true
      case OtherExpression(_) => false
  {
  }

  /** A boolean segment is bracketed and never carries the repetition suffix. */
  lemma BooleanSegmentIgnoresOccurrences(seg: QueryNode, minOccurs: int, maxOccurs: int)
    requires seg.Segment? && (seg.expression.And? || seg.expression.Or?) && BinaryOperands(seg.expression)
    ensures TransformSegment(seg.(minOccurs := minOccurs, maxOccurs := maxOccurs)) == TransformSegment(seg)
    ensures TransformSegment(seg).Ok? ==> var v := TransformSegment(seg).value;
      |v| >= 2 && v[0] == '[' && v[|v| - 1] == ']'
  {
  }

  /** A simple or wildcard segment ends with the repetition suffix of its bounds, which
      reads back as those bounds; a wildcard is exactly ` []` followed by it. */
  lemma SegmentCarriesOccurrences(seg: QueryNode)
    requires seg.Segment? && (seg.expression.Simple? || seg.expression.Wildcard?)
    requires TransformSegment(seg).Ok?
    ensures var v := TransformSegment(seg).value; var q := Occurrences(seg.minOccurs, seg.maxOccurs);
      |q| < |v| && v[|v| - |q|..] == q && ParseOccurrences(v[|v| - |q|..]) == Some((seg.minOccurs, seg.maxOccurs))
    ensures seg.expression.Wildcard? ==> TransformSegment(seg).value == " []" + Occurrences(seg.minOccurs, seg.maxOccurs)
  {
    OccurrencesRoundTrip(seg.minOccurs, seg.maxOccurs);
    var v := TransformSegment(seg).value;
    var q := Occurrences(seg.minOccurs, seg.maxOccurs);
    if seg.expression.Simple? {
      var body := TransformExpression(seg.expression).value;
      assert v == ("[" + body + "]") + q;
    } else {
      assert v == " []" + q;
    }
  }

  /** `_transform_query_sequence`: the translations of the segment children, in order;
      other children contribute nothing; the first failing segment decides the failure. */
  function TransformSequence(children: seq<QueryNode>): (r: Result<string>)
    requires SegmentsWellFormed(children)
    decreases |children|
  {
    if children == [] then Ok("")
    else
      var head :- if children[0].Segment? then TransformSegment(children[0]) else Ok("");
      var tail :- TransformSequence(children[1..]);
      Ok(head + tail)
  }

  /** A sequence translates exactly when each of its segments does, and a failing sequence
      fails with the failure of one of its segments. */
  lemma {:induction false} SequenceSucceeds(children: seq<QueryNode>)
    requires SegmentsWellFormed(children)
    ensures TransformSequence(children).Ok? <==>
      forall i :: 0 <= i < |children| && children[i].Segment? ==> TransformSegment(children[i]).Ok?
    ensures TransformSequence(children).Err? ==>
      exists i :: 0 <= i < |children| && children[i].Segment? && TransformSegment(children[i]) == TransformSequence(children)
    decreases |children|
  {
    if children != [] {
      var tail := children[1..];
      SequenceSucceeds(tail);
      assert forall i :: 1 <= i < |children| ==> children[i] == tail[i - 1];
      if TransformSequence(tail).Err? && !(children[0].Segment? && TransformSegment(children[0]).Err?) {
        var j :| 0 <= j < |tail| && tail[j].Segment? && TransformSegment(tail[j]) == TransformSequence(tail);
        assert children[j + 1] == tail[j];
      }
    }
  }

  /** The segment children of `children`, in order. */
  function SegmentsOf(children: seq<QueryNode>): (r: seq<QueryNode>)
    ensures forall i :: 0 <= i < |r| ==> r[i].Segment?
    decreases |children|
  {
    if children == [] then []
    else (if children[0].Segment? then [children[0]] else []) + SegmentsOf(children[1..])
  }

  lemma {:induction false} SegmentsOfWellFormed(children: seq<QueryNode>)
    requires SegmentsWellFormed(children)
    ensures SegmentsWellFormed(SegmentsOf(children))
    ensures forall i :: 0 <= i < |SegmentsOf(children)| ==> SegmentsOf(children)[i] in children
    decreases |children|
  {
    if children != [] {
      SegmentsOfWellFormed(children[1..]);
      var r := SegmentsOf(children);
      var t := SegmentsOf(children[1..]);
      assert forall x :: x in children[1..] ==> x in children;
      if children[0].Segment? {
        assert r == [children[0]] + t;
      } else {
        assert r == t;
      }
    }
  }

  /** Non-segment children of a sequence contribute nothing: translating only the segments gives the same result. */
  lemma {:induction false} SequenceSkipsNonSegments(children: seq<QueryNode>)
    requires SegmentsWellFormed(children)
    ensures SegmentsWellFormed(SegmentsOf(children))
    ensures TransformSequence(SegmentsOf(children)) == TransformSequence(children)
    decreases |children|
  {
    SegmentsOfWellFormed(children);
    if children != [] {
      SequenceSkipsNonSegments(children[1..]);
      var t := SegmentsOf(children[1..]);
      if children[0].Segment? {
        var r := [children[0]] + t;
        assert SegmentsOf(children) == r;
        assert r[1..] == t;
      } else {
        assert SegmentsOf(children) == t;
        var tail := TransformSequence(children[1..]);
        if tail.Ok? {
          assert "" + tail.value == tail.value;
        }
      }
    }
  }

  /** How the translations of two consecutive runs of children combine. */
  function Concatenated(a: Result<string>, b: Result<string>): Result<string> {
    if a.Err? then a else if b.Err? then b else Ok(a.value + b.value)
  }

  /** Translating a sequence is concatenating the translations of its parts, left to right. */
  lemma {:induction false} SequenceAppend(a: seq<QueryNode>, b: seq<QueryNode>)
    requires SegmentsWellFormed(a) && SegmentsWellFormed(b)
    ensures SegmentsWellFormed(a + b)
    ensures TransformSequence(a + b) == Concatenated(TransformSequence(a), TransformSequence(b))
    decreases |a|
  {
    assert forall i :: 0 <= i < |a + b| ==> (a + b)[i] == if i < |a| then a[i] else b[i - |a|];
    if a == [] {
      assert a + b == b;
      var tb := TransformSequence(b);
      if tb.Ok? {
        assert "" + tb.value == tb.value;
      }
    } else {
      assert (a + b)[1..] == a[1..] + b;
      SequenceAppend(a[1..], b);
      var ta := TransformSequence(a[1..]);
      var tb := TransformSequence(b);
      var h := if a[0].Segment? then TransformSegment(a[0]) else Ok("");
      if h.Ok? && ta.Ok? && tb.Ok? {
        assert h.value + (ta.value + tb.value) == (h.value + ta.value) + tb.value;
      }
    }
  }

  /** `fcs2cqp`: a sequence or a single segment is translated, any other root is too complex. */
  function Fcs2Cqp(tree: QueryNode): (r: Result<string>)
    requires WellFormed(tree)
    ensures tree.OtherQuery? ==> r == Err(UnsupportedQuery)
    ensures tree.Sequence? ==> r == TransformSequence(tree.children)
    ensures tree.Segment? ==> r == TransformSegment(tree)
  {
    match tree
    case Sequence(children) => TransformSequence(children)
    case Segment(_, _, _) => TransformSegment(tree)
    case OtherQuery(_) => Err(UnsupportedQuery)
  }

  /** A bare segment and a sequence holding only that segment translate alike. */
  lemma SegmentAsSequence(seg: QueryNode)
    requires seg.Segment? && BinaryOperands(seg.expression)
    ensures Fcs2Cqp(Sequence([seg])) == Fcs2Cqp(seg)
  {
    var s := [seg];
    assert s[1..] == [];
    assert TransformSequence(s[1..]) == Ok("");
    var r := TransformSegment(seg);
    if r.Ok? {
      assert r.value + "" == r.value;
    }
  }
}
