/** The annotation spans of one search hit: every token of a Korp KWIC row gets a
    word span, a part-of-speech span when its SUC tag is known, and a lemma span,
    all over the same character offsets of the hit's text
    (src/korp_endpoint/endpoint.py:131-169). */
module Spans {
  import opened Text
  import PosTags

  /** One token of a KWIC row: the word form, its SUC morphosyntactic tag and its lemma (`lemmaText`). */
  datatype Token = Token(word: string, msd: string, lemmaText: string)

  /** One KWIC row: its tokens and the token positions `[matchStart, matchEnd)` of the match. */
  datatype Kwic = Kwic(tokens: seq<Token>, matchStart: int, matchEnd: int, corpus: string, position: int)

  /** A span handed to the advanced data view writer; offsets count characters from 1. */
  datatype Span = Span(layer: string, start: int, end: int, value: string, highlight: bool)

  const WordLayerId: string := "http://spraakbanken.gu.se/ns/fcs/layer/word"
  const LemmaLayerId: string := "http://spraakbanken.gu.se/ns/fcs/layer/lemma"
  const PosLayerId: string := "http://spraakbanken.gu.se/ns/fcs/layer/pos"

  /** The match lies inside the row, as every KWIC row Korp returns does. */
  predicate WellFormedKwic(k: Kwic) {
    0 <= k.matchStart <= k.matchEnd <= |k.tokens|
  }

  /** The word span of a token starting at offset `start`. */
  function WordSpan(t: Token, start: int, highlight: bool): Span {
    Span(WordLayerId, start, start + |t.word|, t.word, highlight)
  }

  /** The three `addSpan` calls of the `_add_spans` loop body for one token starting at
      offset `start`: word, part of speech (skipped when `fromSUC` fails), lemma. */
  function TokenSpans(t: Token, start: int, highlight: bool): seq<Span> {
    var end := start + |t.word|;
    var pos := PosTags.FromSuc(t.msd);
    [WordSpan(t, start, highlight)]
    + (if pos.Ok? then [Span(PosLayerId, start, end, pos.value[0], highlight)] else [])
    + [Span(LemmaLayerId, start, end, t.lemmaText, highlight)]
  }

  /** All spans of a token cover `[start, start + |word|]`: the word, then the first UPOS
      candidate of its SUC tag exactly when that tag is known, then the lemma. */
  lemma TokenSpansLayout(t: Token, start: int, highlight: bool)
    ensures var r := TokenSpans(t, start, highlight);
      && |r| == (if PosTags.FromSuc(t.msd).Ok? then 3 else 2)
      && r[0] == Span(WordLayerId, start, start + |t.word|, t.word, highlight)
      && r[|r| - 1] == Span(LemmaLayerId, start, start + |t.word|, t.lemmaText, highlight)
      && (|r| == 3 ==> r[1] == Span(PosLayerId, start, start + |t.word|, PosTags.FromSuc(t.msd).value[0], highlight))
  {
  }

  /** The offset after the tokens `[lo, hi)` laid out from `start`: each token takes its
      length plus one separating position. */
  function NextStart(tokens: seq<Token>, lo: int, hi: int, start: int): int
    requires 0 <= lo && hi <= |tokens|
    decreases hi - lo
  {
    if hi <= lo then start else NextStart(tokens, lo, hi - 1, start) + |tokens[hi - 1].word| + 1
  }

  /** The spans of the tokens `[lo, hi)`, in token order, laid out from `start`. */
  function SpansOf(tokens: seq<Token>, lo: int, hi: int, start: int, highlight: bool): seq<Span>
    requires 0 <= lo && hi <= |tokens|
    decreases hi - lo
  {
    if hi <= lo then []
    else SpansOf(tokens, lo, hi - 1, start, highlight) + TokenSpans(tokens[hi - 1], NextStart(tokens, lo, hi - 1, start), highlight)
  }

  /** `_add_spans`: adds the spans of the tokens `[lo, hi)` from offset `start` and returns
      the offset after the last one. */
  method AddSpans(tokens: seq<Token>, lo: int, hi: int, start: int, highlight: bool) returns (next: int, spans: seq<Span>)
    requires 0 <= lo <= hi <= |tokens|
    ensures next == NextStart(tokens, lo, hi, start)
    ensures spans == SpansOf(tokens, lo, hi, start, highlight)
  {
    next := start;
    spans := [];
    var i := lo;
    while i < hi
      invariant lo <= i <= hi
      invariant next == NextStart(tokens, lo, i, start)
      invariant spans == SpansOf(tokens, lo, i, start, highlight)
    {
      var end := next + |tokens[i].word|;
      spans := spans + TokenSpans(tokens[i], next, highlight);
      next := end + 1;
      i := i + 1;
    }
  }

  // ---------------------------------------------------------------------
  // layout of the tokens

  /** Each token starts right after the previous one's end and a separator, so
      a run of tokens covers its word lengths plus one position per token. */
  lemma {:induction false} NextStartGrows(tokens: seq<Token>, lo: int, hi: int, start: int)
    requires 0 <= lo <= hi <= |tokens|
    ensures NextStart(tokens, lo, hi, start) >= start + (hi - lo)
    decreases hi - lo
  {
    if lo < hi {
      NextStartGrows(tokens, lo, hi - 1, start);
    }
  }

  /** Laying out `[lo, mid)` and then `[mid, hi)` from where the first run stopped is laying out `[lo, hi)`. */
  lemma {:induction false} NextStartSplit(tokens: seq<Token>, lo: int, mid: int, hi: int, start: int)
    requires 0 <= lo <= mid <= hi <= |tokens|
    ensures NextStart(tokens, mid, hi, NextStart(tokens, lo, mid, start)) == NextStart(tokens, lo, hi, start)
    decreases hi - mid
  {
    if mid < hi {
      NextStartSplit(tokens, lo, mid, hi - 1, start);
    }
  }

  /** The word spans among `spans`, in order. */
  function WordSpans(spans: seq<Span>): (r: seq<Span>)
    ensures |r| <= |spans|
    ensures forall j :: 0 <= j < |r| ==> r[j].layer == WordLayerId
    decreases |spans|
  {
    if spans == [] then []
    else (if spans[0].layer == WordLayerId then [spans[0]] else []) + WordSpans(spans[1..])
  }

  lemma {:induction false} WordSpansAppend(a: seq<Span>, b: seq<Span>)
    ensures WordSpans(a + b) == WordSpans(a) + WordSpans(b)
    decreases |a|
  {
    if a == [] {
      assert a + b == b;
    } else {
      assert (a + b)[1..] == a[1..] + b;
      WordSpansAppend(a[1..], b);
    }
  }

  lemma WordSpansOfOne(x: Span)
    ensures WordSpans([x]) == if x.layer == WordLayerId then [x] else []
  {
    assert [x][1..] == [];
  }

  lemma TokenWordSpan(t: Token, start: int, highlight: bool)
    ensures WordSpans(TokenSpans(t, start, highlight)) == [WordSpan(t, start, highlight)]
  {
    var end := start + |t.word|;
    var pos := PosTags.FromSuc(t.msd);
    var w := [WordSpan(t, start, highlight)];
    var p: seq<Span> := if pos.Ok? then [Span(PosLayerId, start, end, pos.value[0], highlight)] else [];
    var l := [Span(LemmaLayerId, start, end, t.lemmaText, highlight)];
    assert TokenSpans(t, start, highlight) == w + p + l;
    assert LemmaLayerId != WordLayerId && PosLayerId != WordLayerId;
    WordSpansAppend(w + p, l);
    WordSpansAppend(w, p);
    WordSpansOfOne(w[0]);
    WordSpansOfOne(l[0]);
    if pos.Ok? {
      WordSpansOfOne(p[0]);
    }
  }

  /** The word spans a run of tokens should produce: one per token, at its offset. */
  function RunWordSpansSpec(tokens: seq<Token>, lo: int, hi: int, start: int, highlight: bool): seq<Span>
    requires 0 <= lo && hi <= |tokens|
    decreases hi - lo
  {
    if hi <= lo then []
    else RunWordSpansSpec(tokens, lo, hi - 1, start, highlight) + [WordSpan(tokens[hi - 1], NextStart(tokens, lo, hi - 1, start), highlight)]
  }

  lemma {:induction false} WordSpansOfRun(tokens: seq<Token>, lo: int, hi: int, start: int, highlight: bool)
    requires 0 <= lo <= hi <= |tokens|
    ensures WordSpans(SpansOf(tokens, lo, hi, start, highlight)) == RunWordSpansSpec(tokens, lo, hi, start, highlight)
    decreases hi - lo
  {
    if lo < hi {
      WordSpansOfRun(tokens, lo, hi - 1, start, highlight);
      var s := NextStart(tokens, lo, hi - 1, start);
      WordSpansAppend(SpansOf(tokens, lo, hi - 1, start, highlight), TokenSpans(tokens[hi - 1], s, highlight));
      TokenWordSpan(tokens[hi - 1], s, highlight);
    }
  }

  lemma {:induction false} RunWordSpansSpecAt(tokens: seq<Token>, lo: int, hi: int, start: int, highlight: bool)
    requires 0 <= lo <= hi <= |tokens|
    ensures |RunWordSpansSpec(tokens, lo, hi, start, highlight)| == hi - lo
    ensures forall j :: lo <= j < hi ==>
      RunWordSpansSpec(tokens, lo, hi, start, highlight)[j - lo] == WordSpan(tokens[j], NextStart(tokens, lo, j, start), highlight)
    decreases hi - lo
  {
    if lo < hi {
      RunWordSpansSpecAt(tokens, lo, hi - 1, start, highlight);
      var prefix := RunWordSpansSpec(tokens, lo, hi - 1, start, highlight);
      var w := RunWordSpansSpec(tokens, lo, hi, start, highlight);
      forall j | lo <= j < hi
        ensures w[j - lo] == WordSpan(tokens[j], NextStart(tokens, lo, j, start), highlight)
      {
        if j < hi - 1 {
          assert w[j - lo] == prefix[j - lo];
        }
      }
    }
  }

  /** The word layer lists every token of `[lo, hi)` once, in order: token `j` gets the
      span from where the tokens before it stop to that plus its length. */
  lemma WordLayerOfRun(tokens: seq<Token>, lo: int, hi: int, start: int, highlight: bool)
    requires 0 <= lo <= hi <= |tokens|
    ensures |WordSpans(SpansOf(tokens, lo, hi, start, highlight))| == hi - lo
    ensures forall j :: lo <= j < hi ==>
      WordSpans(SpansOf(tokens, lo, hi, start, highlight))[j - lo] == WordSpan(tokens[j], NextStart(tokens, lo, j, start), highlight)
  {
    WordSpansOfRun(tokens, lo, hi, start, highlight);
    RunWordSpansSpecAt(tokens, lo, hi, start, highlight);
  }

  // ---------------------------------------------------------------------
  // the spans of a record

  /** The spans of a whole KWIC row: the tokens before the match, the match (highlighted)
      and the tokens after it, laid out from offset 1. */
  function RecordSpans(k: Kwic): seq<Span>
    requires WellFormedKwic(k)
  {
    var before := NextStart(k.tokens, 0, k.matchStart, 1);
    var after := NextStart(k.tokens, k.matchStart, k.matchEnd, before);
    SpansOf(k.tokens, 0, k.matchStart, 1, false)
    + SpansOf(k.tokens, k.matchStart, k.matchEnd, before, true)
    + SpansOf(k.tokens, k.matchEnd, |k.tokens|, after, false)
  }

  /** The word spans of a run that starts where the tokens before it stop, each at its
      offset within the whole row. */
  lemma RunInRow(tokens: seq<Token>, lo: int, hi: int, highlight: bool)
    requires 0 <= lo <= hi <= |tokens|
    ensures |RunWordSpansSpec(tokens, lo, hi, NextStart(tokens, 0, lo, 1), highlight)| == hi - lo
    ensures forall j :: lo <= j < hi ==>
      RunWordSpansSpec(tokens, lo, hi, NextStart(tokens, 0, lo, 1), highlight)[j - lo]
        == WordSpan(tokens[j], NextStart(tokens, 0, j, 1), highlight)
  {
    var s0 := NextStart(tokens, 0, lo, 1);
    RunWordSpansSpecAt(tokens, lo, hi, s0, highlight);
    forall j | lo <= j < hi
      ensures NextStart(tokens, lo, j, s0) == NextStart(tokens, 0, j, 1)
    {
      NextStartSplit(tokens, 0, lo, j, 1);
    }
  }

  /** The word layer of a record is the word layers of its three runs, one after the other. */
  lemma RecordWordSpansOfRuns(k: Kwic)
    requires WellFormedKwic(k)
    ensures var before := NextStart(k.tokens, 0, k.matchStart, 1);
      WordSpans(RecordSpans(k))
        == RunWordSpansSpec(k.tokens, 0, k.matchStart, 1, false)
         + RunWordSpansSpec(k.tokens, k.matchStart, k.matchEnd, before, true)
         + RunWordSpansSpec(k.tokens, k.matchEnd, |k.tokens|, NextStart(k.tokens, k.matchStart, k.matchEnd, before), false)
  {
    var ts := k.tokens;
    var before := NextStart(ts, 0, k.matchStart, 1);
    var after := NextStart(ts, k.matchStart, k.matchEnd, before);
    var a := SpansOf(ts, 0, k.matchStart, 1, false);
    var b := SpansOf(ts, k.matchStart, k.matchEnd, before, true);
    var c := SpansOf(ts, k.matchEnd, |ts|, after, false);
    WordSpansAppend(a + b, c);
    WordSpansAppend(a, b);
    WordSpansOfRun(ts, 0, k.matchStart, 1, false);
    WordSpansOfRun(ts, k.matchStart, k.matchEnd, before, true);
    WordSpansOfRun(ts, k.matchEnd, |ts|, after, false);
  }

  /** The word layer of a record lists every token of the row in order, laid out from
      offset 1, and highlights exactly the tokens of the match. */
  lemma RecordWordLayer(k: Kwic)
    requires WellFormedKwic(k)
    ensures |WordSpans(RecordSpans(k))| == |k.tokens|
    ensures forall j :: 0 <= j < |k.tokens| ==>
      WordSpans(RecordSpans(k))[j] == WordSpan(k.tokens[j], NextStart(k.tokens, 0, j, 1), k.matchStart <= j < k.matchEnd)
  {
    var ts := k.tokens;
    var ms := k.matchStart;
    var me := k.matchEnd;
    RecordWordSpansOfRuns(k);
    NextStartSplit(ts, 0, ms, me, 1);
    RowWordSpans(ts, ms, me);
  }

  /** The expected word spans of the three runs of a row, laid side by side. */
  lemma RowWordSpans(ts: seq<Token>, ms: int, me: int)
    requires 0 <= ms <= me <= |ts|
    ensures var w := RunWordSpansSpec(ts, 0, ms, 1, false)
                   + RunWordSpansSpec(ts, ms, me, NextStart(ts, 0, ms, 1), true)
                   + RunWordSpansSpec(ts, me, |ts|, NextStart(ts, 0, me, 1), false);
      && |w| == |ts|
      && forall j :: 0 <= j < |ts| ==> w[j] == WordSpan(ts[j], NextStart(ts, 0, j, 1), ms <= j < me)
  {
    assert NextStart(ts, 0, 0, 1) == 1;
    RunInRow(ts, 0, ms, false);
    RunInRow(ts, ms, me, true);
    RunInRow(ts, me, |ts|, false);
    var offsets := seq(|ts|, j requires 0 <= j < |ts| => NextStart(ts, 0, j, 1));
    ThreeRuns(ts, offsets, ms, me,
      RunWordSpansSpec(ts, 0, ms, 1, false),
      RunWordSpansSpec(ts, ms, me, NextStart(ts, 0, ms, 1), true),
      RunWordSpansSpec(ts, me, |ts|, NextStart(ts, 0, me, 1), false));
  }

  /** Three runs of word spans laid side by side, each correct for its token range,
      give every token its span in row order. */
  lemma ThreeRuns(ts: seq<Token>, offsets: seq<int>, ms: int, me: int, wa: seq<Span>, wb: seq<Span>, wc: seq<Span>)
    requires 0 <= ms <= me <= |ts| == |offsets|
    requires |wa| == ms && |wb| == me - ms && |wc| == |ts| - me
    requires forall j :: 0 <= j < ms ==> wa[j] == WordSpan(ts[j], offsets[j], false)
    requires forall j :: ms <= j < me ==> wb[j - ms] == WordSpan(ts[j], offsets[j], true)
    requires forall j :: me <= j < |ts| ==> wc[j - me] == WordSpan(ts[j], offsets[j], false)
    ensures |wa + wb + wc| == |ts|
    ensures forall j :: 0 <= j < |ts| ==> (wa + wb + wc)[j] == WordSpan(ts[j], offsets[j], ms <= j < me)
  {
    var wab := wa + wb;
    var w := wab + wc;
    forall j | 0 <= j < |ts|
      ensures w[j] == WordSpan(ts[j], offsets[j], ms <= j < me)
    {
      if j < me {
        assert w[j] == wab[j];
        if j < ms {
          assert wab[j] == wa[j];
        } else {
          assert wab[j] == wb[j - ms];
        }
      } else {
        assert w[j] == wc[j - me];
      }
    }
  }

  /** Lines 160-169: the spans the record writer adds for a KWIC row. */
  method WriteRecordSpans(k: Kwic) returns (spans: seq<Span>)
    requires WellFormedKwic(k)
    ensures spans == RecordSpans(k)
  {
    var tokens := k.tokens;
    var start := 1;
    var before: seq<Span> := [];
    if k.matchStart != 0 {
      start, before := AddSpans(tokens, 0, k.matchStart, 1, false);
    }
    var matched: seq<Span>;
    start, matched := AddSpans(tokens, k.matchStart, k.matchEnd, start, true);
    var after: seq<Span> := [];
    if |tokens| > k.matchEnd {
      var _, rest := AddSpans(tokens, k.matchEnd, |tokens|, start, false);
      after := rest;
    }
    spans := before + matched + after;
  }

  /** The record spans exactly as lines 160-169 write them: the tokens before the match
      are skipped when the match starts at token 1, not when it starts at token 0. */
  function WrittenRecordSpans(k: Kwic): (r: seq<Span>)
    requires WellFormedKwic(k)
    ensures k.matchStart != 1 ==> r == RecordSpans(k)
  {
    var before := if k.matchStart != 1 then NextStart(k.tokens, 0, k.matchStart, 1) else 1;
    var after := NextStart(k.tokens, k.matchStart, k.matchEnd, before);
    (if k.matchStart != 1 then SpansOf(k.tokens, 0, k.matchStart, 1, false) else [])
    + SpansOf(k.tokens, k.matchStart, k.matchEnd, before, true)
    + SpansOf(k.tokens, k.matchEnd, |k.tokens|, after, false)
  }

  /** Lines 160-169 as written, guard included: the spans the record writer adds for a KWIC row. */
  method WriteRecordSpansAsWritten(k: Kwic) returns (spans: seq<Span>)
    requires WellFormedKwic(k)
    ensures spans == WrittenRecordSpans(k)
    ensures k.matchStart != 1 ==> spans == RecordSpans(k)
  {
    var tokens := k.tokens;
    var start := 1;
    var before: seq<Span> := [];
    if k.matchStart != 1 {
      start, before := AddSpans(tokens, 0, k.matchStart, 1, false);
    }
    var matched: seq<Span>;
    start, matched := AddSpans(tokens, k.matchStart, k.matchEnd, start, true);
    var after: seq<Span> := [];
    if |tokens| > k.matchEnd {
      var _, rest := AddSpans(tokens, k.matchEnd, |tokens|, start, false);
      after := rest;
    }
    spans := before + matched + after;
  }

  /** As written, a match starting at token 1 loses token 0: the word layer has one span
      fewer than the row has tokens, and the match is laid out from offset 1. */
  lemma WrittenDropsFirstToken(k: Kwic)
    requires WellFormedKwic(k) && k.matchStart == 1
    ensures |WordSpans(WrittenRecordSpans(k))| == |k.tokens| - 1
    ensures |WordSpans(RecordSpans(k))| == |k.tokens|
    ensures k.matchEnd > 1 ==> WordSpans(WrittenRecordSpans(k))[0] == WordSpan(k.tokens[1], 1, true)
  {
    var ts := k.tokens;
    var b := SpansOf(ts, 1, k.matchEnd, 1, true);
    var c := SpansOf(ts, k.matchEnd, |ts|, NextStart(ts, 1, k.matchEnd, 1), false);
    assert WrittenRecordSpans(k) == [] + b + c;
    assert [] + b + c == b + c;
    WordSpansAppend(b, c);
    WordLayerOfRun(ts, 1, k.matchEnd, 1, true);
    WordLayerOfRun(ts, k.matchEnd, |ts|, NextStart(ts, 1, k.matchEnd, 1), false);
    RecordWordLayer(k);
  }
}
