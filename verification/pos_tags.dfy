/** The many-valued mapping between the 17 Universal Dependencies part-of-speech
    tags (UPOS) used in FCS-QL queries and the SUC tags the Korp backend stores
    (src/korp_endpoint/query_converter.py:216-284). */
module PosTags {
  import opened Results
  import opened Text

  /** `UD172SUC`: UPOS tag to the SUC tags it may stand for, in table order. */
  const Ud17ToSuc: map<string, seq<string>> := map[
    "NOUN" := ["NN"],
    "PROPN" := ["PM"],
    "ADJ" := ["JJ", "PC", "RO"],
    "VERB" := ["VB", "PC"],
    "AUX" := ["VB"],
    "NUM" := ["RG", "RO"],
    "PRON" := ["PN", "PS", "HP", "HS"],
    "DET" := ["DT", "HD", "HS", "PS"],
    "PART" := ["IE"],
    "ADV" := ["AB", "HA", "PL"],
    "ADP" := ["PL", "PP"],
    "CCONJ" := ["KN"],
    "SCONJ" := ["SN"],
    "INTJ" := ["IN"],
    "PUNCT" := ["MAD", "MID", "PAD"],
    "X" := ["UO"]
  ]

  /** `SUC2UD17`: SUC tag to the UPOS tags it may stand for, in table order. */
  const SucToUd17: map<string, seq<string>> := map[
    "NN" := ["NOUN"],
    "PM" := ["PROPN"],
    "VB" := ["VERB", "AUX"],
    "IE" := ["PART"],
    "PC" := ["VERB"],
    "PL" := ["PART"],
    "PN" := ["PRON"],
    "PS" := ["DET"],
    "HP" := ["PRON"],
    "HS" := ["DET"],
    "DT" := ["DET"],
    "HD" := ["DET"],
    "JJ" := ["ADJ"],
    "AB" := ["ADV"],
    "HA" := ["ADV"],
    "KN" := ["CCONJ"],
    "SN" := ["SCONJ"],
    "PP" := ["ADP"],
    "RG" := ["NUM"],
    "RO" := ["ADJ"],
    "IN" := ["INTJ"],
    "UO" := ["X"],
    "MAD" := ["PUNCT"],
    "MID" := ["PUNCT"],
    "PAD" := ["PUNCT"]
  ]

  /** No table lists an empty candidate list, so `if res:` in the lookups only rejects missing keys. */
  lemma TablesHaveCandidates()
    ensures forall k :: k in Ud17ToSuc ==> |Ud17ToSuc[k]| > 0
    ensures forall k :: k in SucToUd17 ==> |SucToUd17[k]| > 0
  {
  }

  /** The error of `toSUC`: a syntax error whose message names the tag, with no details. */
  function UnknownUpos(ud17: string): Failure {
    Diagnostic(QuerySyntaxError, None, Some("unknown UD-17 PoS code in query: " + ud17))
  }

  /** The error of `fromSUC`: the message names the tag without its suffix, with no details. */
  function UnknownSuc(pos: string): Failure {
    Diagnostic(CannotProcessQueryReasonUnknown, None, Some("unknown PoS code from search engine: " + pos))
  }

  /** `toSUC`: look up the upper-cased UPOS tag; an unknown tag is a query syntax error. */
  function ToSuc(ud17: string): (r: Result<seq<string>>)
    ensures r.Ok? <==> Upper(ud17) in Ud17ToSuc
    ensures r.Ok? ==> r.value == Ud17ToSuc[Upper(ud17)] && |r.value| > 0
    ensures r.Err? ==> r.failure == UnknownUpos(ud17)
  {
    TablesHaveCandidates();
    var res := Upper(ud17);
    if res in Ud17ToSuc && |Ud17ToSuc[res]| > 0 then Ok(Ud17ToSuc[res])
    else Err(UnknownUpos(ud17))
  }

  /** `fromSUC`: drop everything from the first `.` on, look up the upper-cased rest;
      an unknown tag is reported with the shortened tag. */
  function FromSuc(suc: string): (r: Result<seq<string>>)
    ensures r.Ok? <==> Upper(PrefixBefore(suc, '.')) in SucToUd17
    ensures r.Ok? ==> r.value == SucToUd17[Upper(PrefixBefore(suc, '.'))] && |r.value| > 0
    ensures r.Err? ==> r.failure == UnknownSuc(PrefixBefore(suc, '.'))
  {
    TablesHaveCandidates();
    var pos := PrefixBefore(suc, '.');
    var key := Upper(pos);
    if key in SucToUd17 && |SucToUd17[key]| > 0 then Ok(SucToUd17[key])
    else Err(UnknownSuc(pos))
  }

  /** `toSUC` does not see the case of its argument. */
  lemma ToSucIgnoresCase(ud17: string)
    ensures ToSuc(Lower(ud17)).Ok? <==> ToSuc(ud17).Ok?
    ensures ToSuc(ud17).Ok? ==> ToSuc(Lower(ud17)).value == ToSuc(ud17).value
  {
    UpperOfLower(ud17);
  }

  /** `fromSUC` does not see the case of its argument. */
  lemma FromSucIgnoresCase(suc: string)
    ensures FromSuc(Lower(suc)).Ok? <==> FromSuc(suc).Ok?
    ensures FromSuc(suc).Ok? ==> FromSuc(Lower(suc)).value == FromSuc(suc).value
  {
    var p := PrefixBefore(suc, '.');
    var lp := PrefixBefore(Lower(suc), '.');
    assert lp == Lower(p) by {
      LowerPrefixBefore(suc);
    }
    UpperOfLower(p);
  }

  lemma {:induction false} LowerPrefixBefore(s: string)
    ensures PrefixBefore(Lower(s), '.') == Lower(PrefixBefore(s, '.'))
    decreases |s|
  {
    if s != [] {
      assert Lower(s)[1..] == Lower(s[1..]);
      LowerPrefixBefore(s[1..]);
      if s[0] != '.' {
        LowerAppend([s[0]], PrefixBefore(s[1..], '.'));
      }
    }
  }

  /** `fromSUC` ignores an attribute suffix: "PC.sub" is looked up as "PC", also in the error it reports. */
  lemma FromSucIgnoresSuffix(pos: string, suffix: string)
    requires '.' !in pos
    ensures FromSuc(pos + "." + suffix) == FromSuc(pos)
  {
    PrefixBeforeFree(pos, '.', suffix);
    PrefixBeforeAbsent(pos, '.');
  }

  /** Every SUC tag `toSUC` offers is one `fromSUC` knows. */
  lemma SucCandidatesKnown()
    ensures forall u, k :: u in Ud17ToSuc && 0 <= k < |Ud17ToSuc[u]| ==> Ud17ToSuc[u][k] in SucToUd17
  {
  }

  /** Every UPOS tag `fromSUC` offers is one `toSUC` knows. */
  lemma UdCandidatesKnown()
    ensures forall s, k :: s in SucToUd17 && 0 <= k < |SucToUd17[s]| ==> SucToUd17[s][k] in Ud17ToSuc
  {
  }

  /** No SUC tag contains `|`, so an alternation of candidates can be split back into them. */
  lemma NoBarInSucTags()
    ensures forall u, k :: u in Ud17ToSuc && 0 <= k < |Ud17ToSuc[u]| ==> '|' !in Ud17ToSuc[u][k]
  {
  }

  /** The mapping is not invertible: ADJ may be written PC in SUC, but PC maps back only to VERB. */
  lemma NotInvertible()
    ensures ToSuc("ADJ") == Ok(["JJ", "PC", "RO"])
    ensures FromSuc("PC") == Ok(["VERB"])
  {
    assert Upper("ADJ") == "ADJ";
    assert PrefixBefore("PC", '.') == "PC";
    assert Upper("PC") == "PC";
  }

  /** `fromSUC("pc.sub")` looks up `PC`, whatever the case and the attribute suffix. */
  lemma FromSucSuffixExample()
    ensures FromSuc("pc.sub") == Ok(["VERB"])
  {
    assert "pc.sub" == "pc" + "." + "sub";
    FromSucIgnoresSuffix("pc", "sub");
    assert PrefixBefore("pc", '.') == "pc";
    assert Upper("pc") == "PC";
  }

  /** An unknown SUC tag is reported without its attribute suffix. */
  lemma FromSucUnknownExample()
    ensures FromSuc("XX.y") == Err(UnknownSuc("XX"))
  {
    assert "XX.y" == "XX" + "." + "y";
    PrefixBeforeFree("XX", '.', "y");
    assert Upper("XX") == "XX";
  }
}
