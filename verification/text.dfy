/** The Python string built-ins the translator relies on, on the ASCII range:
    `str.lower`, `str.upper`, `str.split()`, `str.strip("\"'")`, `sep.join`,
    `str.split(".", 1)[0]` and the decimal formatting of `int`. */
module Text {
  import opened Results

  /** `str.isspace` restricted to ASCII: space, \t \n \v \f \r and the separators 0x1C-0x1F. */
  predicate IsSpace(c: char) {
    c == ' ' || (9 <= c as int <= 13) || (28 <= c as int <= 31)
  }

  function LowerChar(c: char): char {
    if 'A' <= c <= 'Z' then (c as int + 32) as char else c
  }

  function UpperChar(c: char): char {
    if 'a' <= c <= 'z' then (c as int - 32) as char else c
  }

  /** `str.lower` on ASCII. */
  function Lower(s: string): (r: string)
    ensures |r| == |s| && forall i :: 0 <= i < |s| ==> r[i] == LowerChar(s[i])
  {
    seq(|s|, i requires 0 <= i < |s| => LowerChar(s[i]))
  }

  /** `str.upper` on ASCII. */
  function Upper(s: string): (r: string)
    ensures |r| == |s| && forall i :: 0 <= i < |s| ==> r[i] == UpperChar(s[i])
  {
    seq(|s|, i requires 0 <= i < |s| => UpperChar(s[i]))
  }

  lemma LowerAppend(a: string, b: string)
    ensures Lower(a + b) == Lower(a) + Lower(b)
  {
    assert forall i :: 0 <= i < |a + b| ==> Lower(a + b)[i] == (Lower(a) + Lower(b))[i];
  }

  /** Folding case first and then upper-casing is the same as upper-casing. */
  lemma UpperOfLower(s: string)
    ensures Upper(Lower(s)) == Upper(s)
  {
    forall i | 0 <= i < |s|
      ensures Upper(Lower(s))[i] == Upper(s)[i]
    {
      assert UpperChar(LowerChar(s[i])) == UpperChar(s[i]);
    }
  }

  // ---------------------------------------------------------------------
  // str.split() without arguments

  predicate IsWord(w: string) {
    w != [] && forall i :: 0 <= i < |w| ==> !IsSpace(w[i])
  }

  /** Length of the run of non-space characters that opens `s`. */
  function WordEnd(s: string): (n: nat)
    requires s != [] && !IsSpace(s[0])
    ensures 1 <= n <= |s|
    ensures forall i :: 0 <= i < n ==> !IsSpace(s[i])
    ensures n < |s| ==> IsSpace(s[n])
    decreases |s|
  {
    if |s| == 1 || IsSpace(s[1]) then 1 else 1 + WordEnd(s[1..])
  }

  /** `s.split()`: the maximal runs of non-space characters, in order. */
  function Words(s: string): (ws: seq<string>)
    ensures forall k :: 0 <= k < |ws| ==> IsWord(ws[k])
    decreases |s|
  {
    if s == [] then []
    else if IsSpace(s[0]) then Words(s[1..])
    else
      var n := WordEnd(s);
      [s[..n]] + Words(s[n..])
  }

  /** `sep.join(ws)` for a one-character separator. */
  function JoinWith(ws: seq<string>, sep: char): string
    decreases |ws|
  {
    if ws == [] then ""
    else if |ws| == 1 then ws[0]
    else ws[0] + [sep] + JoinWith(ws[1..], sep)
  }

  /** Concatenation of all strings of `ws`, in order. */
  function Concat(ws: seq<string>): string
    decreases |ws|
  {
    if ws == [] then "" else ws[0] + Concat(ws[1..])
  }

  /** `s` with every space character removed. */
  function NonSpace(s: string): string
    decreases |s|
  {
    if s == [] then "" else (if IsSpace(s[0]) then "" else [s[0]]) + NonSpace(s[1..])
  }

  lemma WordEndOfWord(w: string, t: string)
    requires IsWord(w)
    requires t == [] || IsSpace(t[0])
    ensures WordEnd(w + t) == |w|
  {
    var s := w + t;
    assert forall i :: 0 <= i < |w| ==> s[i] == w[i];
    assert |w| < |s| ==> s[|w|] == t[0];
  }

  lemma {:induction false} WordsOfLeadingSpaces(sp: string, s: string)
    requires forall i :: 0 <= i < |sp| ==> IsSpace(sp[i])
    ensures Words(sp + s) == Words(s)
    decreases |sp|
  {
    if sp != [] {
      assert (sp + s)[0] == sp[0];
      assert (sp + s)[1..] == sp[1..] + s;
      WordsOfLeadingSpaces(sp[1..], s);
    } else {
      assert sp + s == s;
    }
  }

  /** Splitting words that were joined by single spaces gives the words back. */
  lemma {:induction false} WordsOfJoin(ws: seq<string>)
    requires forall k :: 0 <= k < |ws| ==> IsWord(ws[k])
    ensures Words(JoinWith(ws, ' ')) == ws
    decreases |ws|
  {
    if |ws| == 1 {
      var w := ws[0];
      WordEndOfWord(w, "");
      assert w + "" == w;
      assert w[|w|..] == [];
    } else if |ws| > 1 {
      var w := ws[0];
      var rest := JoinWith(ws[1..], ' ');
      var s := w + ([' '] + rest);
      assert JoinWith(ws, ' ') == s;
      WordEndOfWord(w, [' '] + rest);
      assert s[..|w|] == w;
      assert s[|w|..] == [' '] + rest;
      WordsOfLeadingSpaces([' '], rest);
      WordsOfJoin(ws[1..]);
      assert ws == [w] + ws[1..];
    }
  }

  lemma {:induction false} NonSpaceAppend(a: string, b: string)
    ensures NonSpace(a + b) == NonSpace(a) + NonSpace(b)
    decreases |a|
  {
    if a != [] {
      assert (a + b)[0] == a[0];
      assert (a + b)[1..] == a[1..] + b;
      NonSpaceAppend(a[1..], b);
    } else {
      assert a + b == b;
    }
  }

  lemma {:induction false} NonSpaceOfWord(w: string)
    requires forall i :: 0 <= i < |w| ==> !IsSpace(w[i])
    ensures NonSpace(w) == w
    decreases |w|
  {
    if w != [] {
      NonSpaceOfWord(w[1..]);
    }
  }

  /** `split()` loses exactly the space characters: the words concatenated are
      the non-space characters of `s`, in order. */
  lemma {:induction false} WordsKeepNonSpace(s: string)
    ensures Concat(Words(s)) == NonSpace(s)
    decreases |s|
  {
    if s != [] {
      if IsSpace(s[0]) {
        WordsKeepNonSpace(s[1..]);
      } else {
        var n := WordEnd(s);
        assert s == s[..n] + s[n..];
        NonSpaceAppend(s[..n], s[n..]);
        NonSpaceOfWord(s[..n]);
        WordsKeepNonSpace(s[n..]);
        var ws := Words(s);
        assert ws == [s[..n]] + Words(s[n..]);
        assert ws[1..] == Words(s[n..]);
      }
    }
  }

  lemma {:induction false} NoWordsInBlank(s: string)
    requires forall i :: 0 <= i < |s| ==> IsSpace(s[i])
    ensures Words(s) == []
    decreases |s|
  {
    if s != [] {
      NoWordsInBlank(s[1..]);
    }
  }

  lemma LowerKeepsWords(w: string)
    requires IsWord(w)
    ensures IsWord(Lower(w))
  {
  }

  /** Every string of `ws`, lower-cased. */
  function LowerAll(ws: seq<string>): (r: seq<string>)
    ensures |r| == |ws| && forall k :: 0 <= k < |ws| ==> r[k] == Lower(ws[k])
  {
    seq(|ws|, k requires 0 <= k < |ws| => Lower(ws[k]))
  }

  /** Lower-casing neither makes nor removes white space. */
  lemma LowerCharSpace(c: char)
    ensures IsSpace(LowerChar(c)) <==> IsSpace(c)
  {
  }

  /** Lower-casing keeps the end of the opening word where it is. */
  lemma {:induction false} WordEndLower(s: string)
    requires s != [] && !IsSpace(s[0])
    ensures Lower(s) != [] && !IsSpace(Lower(s)[0])
    ensures WordEnd(Lower(s)) == WordEnd(s)
    decreases |s|
  {
    LowerCharSpace(s[0]);
    if |s| > 1 {
      LowerCharSpace(s[1]);
      if !IsSpace(s[1]) {
        assert Lower(s)[1..] == Lower(s[1..]);
        WordEndLower(s[1..]);
      }
    }
  }

  /** `s.lower().split()` is `[w.lower() for w in s.split()]`, for every `s`. */
  lemma {:induction false} WordsLower(s: string)
    ensures Words(Lower(s)) == LowerAll(Words(s))
    decreases |s|
  {
    if s != [] {
      LowerCharSpace(s[0]);
      var ls := Lower(s);
      if IsSpace(s[0]) {
        assert ls[1..] == Lower(s[1..]);
        WordsLower(s[1..]);
      } else {
        WordEndLower(s);
        var n := WordEnd(s);
        assert ls[..n] == Lower(s[..n]);
        assert ls[n..] == Lower(s[n..]);
        WordsLower(s[n..]);
        var rest := Words(s[n..]);
        assert LowerAll([s[..n]] + rest) == [Lower(s[..n])] + LowerAll(rest);
      }
    }
  }

  lemma {:induction false} LowerJoin(ws: seq<string>)
    ensures Lower(JoinWith(ws, ' ')) == JoinWith(LowerAll(ws), ' ')
    decreases |ws|
  {
    if |ws| > 1 {
      var lw := LowerAll(ws);
      LowerAppend(ws[0] + [' '], JoinWith(ws[1..], ' '));
      LowerAppend(ws[0], [' ']);
      assert Lower([' ']) == [' '];
      LowerJoin(ws[1..]);
      assert lw[1..] == LowerAll(ws[1..]);
    }
  }

  // ---------------------------------------------------------------------
  // str.strip("\"'")

  predicate IsQuote(c: char) {
    c == '"' || c == '\''
  }

  /** `t.lstrip("\"'")`: the suffix of `t` left after dropping its leading quotes. */
  function TrimLeadingQuotes(t: string): (r: string)
    ensures |r| <= |t| && r == t[|t| - |r|..]
    ensures forall k :: 0 <= k < |t| - |r| ==> IsQuote(t[k])
    ensures r != [] ==> !IsQuote(r[0])
    decreases |t|
  {
    if t != [] && IsQuote(t[0]) then TrimLeadingQuotes(t[1..]) else t
  }

  /** `t.rstrip("\"'")`: the prefix of `t` left after dropping its trailing quotes. */
  function TrimTrailingQuotes(t: string): (r: string)
    ensures |r| <= |t| && r == t[..|r|]
    ensures forall k :: |r| <= k < |t| ==> IsQuote(t[k])
    ensures r != [] ==> !IsQuote(r[|r| - 1])
    decreases |t|
  {
    if t != [] && IsQuote(t[|t| - 1]) then TrimTrailingQuotes(t[..|t| - 1]) else t
  }

  /** `t.strip("\"'")`. */
  function StripQuotes(t: string): string {
    TrimTrailingQuotes(TrimLeadingQuotes(t))
  }

  /** The stripped term neither starts nor ends with a quote, and stripping it again changes nothing. */
  lemma StripQuotesIdempotent(t: string)
    ensures var r := StripQuotes(t); r != [] ==> !IsQuote(r[0]) && !IsQuote(r[|r| - 1])
    ensures StripQuotes(StripQuotes(t)) == StripQuotes(t)
  {
    var l := TrimLeadingQuotes(t);
    var r := TrimTrailingQuotes(l);
    if r != [] {
      assert r[0] == l[0];
      assert TrimLeadingQuotes(r) == r;
      assert TrimTrailingQuotes(r) == r;
    }
  }

  /** A term that neither starts nor ends with a quote is left as it is. */
  lemma StripQuotesKeeps(t: string)
    requires t != [] ==> !IsQuote(t[0]) && !IsQuote(t[|t| - 1])
    ensures StripQuotes(t) == t
  {
  }

  // ---------------------------------------------------------------------
  // str.split(sep) and the prefix before the first separator

  /** `s.split(c, 1)[0]`: the text before the first `c`, or all of `s`. */
  function PrefixBefore(s: string, c: char): (p: string)
    ensures |p| <= |s| && p == s[..|p|] && c !in p
    ensures |p| < |s| ==> s[|p|] == c
    decreases |s|
  {
    if s == [] then ""
    else if s[0] == c then ""
    else [s[0]] + PrefixBefore(s[1..], c)
  }

  /** `s.split(c)`: the pieces between occurrences of `c`, empty pieces kept. */
  function SplitOn(s: string, c: char): (parts: seq<string>)
    ensures |parts| > 0
    decreases |s|
  {
    var p := PrefixBefore(s, c);
    if |p| == |s| then [s] else [p] + SplitOn(s[|p| + 1..], c)
  }

  lemma {:induction false} PrefixBeforeAbsent(s: string, c: char)
    requires c !in s
    ensures PrefixBefore(s, c) == s
    decreases |s|
  {
    if s != [] {
      assert s[0] in s;
      assert forall x :: x in s[1..] ==> x in s;
      PrefixBeforeAbsent(s[1..], c);
    }
  }

  lemma PrefixBeforeFree(w: string, c: char, t: string)
    requires c !in w
    ensures PrefixBefore(w + [c] + t, c) == w
  {
    var s := w + [c] + t;
    assert forall i :: 0 <= i < |w| ==> s[i] == w[i];
    assert s[|w|] == c;
  }

  /** When `c` occurs in `s`, `s` is the text before its first `c`, the `c`, and the rest. */
  lemma PrefixBeforeSplit(s: string, c: char)
    requires |PrefixBefore(s, c)| < |s|
    ensures s == PrefixBefore(s, c) + [c] + s[|PrefixBefore(s, c)| + 1..]
  {
    var p := PrefixBefore(s, c);
    var t := p + [c] + s[|p| + 1..];
    assert |t| == |s|;
    forall i | 0 <= i < |s| ensures t[i] == s[i] {
      if i < |p| {
        assert t[i] == p[i];
      } else if i > |p| {
        assert t[i] == s[|p| + 1..][i - |p| - 1];
      }
    }
  }

  /** Joining pieces free of `c` with `c` and splitting again on `c` gives the pieces back. */
  lemma {:induction false} SplitOnJoin(ws: seq<string>, c: char)
    requires ws != []
    requires forall k :: 0 <= k < |ws| ==> c !in ws[k]
    ensures SplitOn(JoinWith(ws, c), c) == ws
    decreases |ws|
  {
    if |ws| == 1 {
    } else {
      var rest := JoinWith(ws[1..], c);
      var s := ws[0] + [c] + rest;
      PrefixBeforeFree(ws[0], c, rest);
      assert s[|ws[0]| + 1..] == rest;
      SplitOnJoin(ws[1..], c);
      assert ws == [ws[0]] + ws[1..];
    }
  }

  // ---------------------------------------------------------------------
  // decimal formatting of integers, as `str(n)` / f"{n}"

  predicate IsDigit(c: char) {
    '0' <= c <= '9'
  }

  function DigitChar(d: nat): (c: char)
    requires d < 10
    ensures IsDigit(c)
  {
    ('0' as int + d) as char
  }

  function DigitValue(c: char): nat {
    if IsDigit(c) then c as int - '0' as int else 0
  }

  /** The decimal digits of `n`, most significant first, without leading zeros. */
  function NatToDecimal(n: nat): (r: string)
    ensures IsNatDecimal(r)
    decreases n
  {
    if n < 10 then [DigitChar(n)] else NatToDecimal(n / 10) + [DigitChar(n % 10)]
  }

  /** `str(i)`: a minus sign for negative numbers, then the digits of `|i|`. */
  function IntToDecimal(i: int): (r: string)
    ensures r != [] && ',' !in r && '}' !in r
  {
    if i < 0 then "-" + NatToDecimal(-i) else NatToDecimal(i)
  }

  /** A canonical decimal numeral: digits only, and no leading zero except in "0" itself. */
  predicate IsNatDecimal(s: string) {
    && s != []
    && (forall i :: 0 <= i < |s| ==> IsDigit(s[i]))
    && (s[0] == '0' ==> |s| == 1)
  }

  /** The value of a string of decimal digits. */
  function DecimalValue(s: string): nat
    decreases |s|
  {
    if s == [] then 0 else 10 * DecimalValue(s[..|s| - 1]) + DigitValue(s[|s| - 1])
  }

  /** A strict reading of an integer: an optional minus sign before a canonical numeral
      other than "0"; anything else is not a number. */
  function ParseInt(s: string): Option<int> {
    if s != [] && s[0] == '-' then
      if IsNatDecimal(s[1..]) && s[1..] != "0" then Some(0 - DecimalValue(s[1..])) else None
    else if IsNatDecimal(s) then Some(DecimalValue(s))
    else None
  }

  lemma {:induction false} NatToDecimalRoundTrip(n: nat)
    ensures DecimalValue(NatToDecimal(n)) == n
    ensures n > 0 ==> NatToDecimal(n) != "0"
    decreases n
  {
    if n >= 10 {
      var r := NatToDecimal(n);
      assert r[..|r| - 1] == NatToDecimal(n / 10);
      NatToDecimalRoundTrip(n / 10);
    }
  }

  /** A canonical numeral with a non-zero first digit has a positive value. */
  lemma {:induction false} LeadingDigitPositive(s: string)
    requires s != [] && (forall i :: 0 <= i < |s| ==> IsDigit(s[i])) && s[0] != '0'
    ensures DecimalValue(s) >= 1
    decreases |s|
  {
    if |s| > 1 {
      LeadingDigitPositive(s[..|s| - 1]);
    }
  }

  /** A canonical numeral is the decimal form of its value: the reading accepts one
      spelling per number. */
  lemma {:induction false} NatDecimalCanonical(s: string)
    requires IsNatDecimal(s)
    ensures NatToDecimal(DecimalValue(s)) == s
    decreases |s|
  {
    var c := s[|s| - 1];
    assert DigitChar(DigitValue(c)) == c;
    if |s| > 1 {
      var p := s[..|s| - 1];
      assert p[0] == s[0];
      LeadingDigitPositive(p);
      NatDecimalCanonical(p);
      assert s == p + [c];
    }
  }

  /** Reading back the formatted integer gives the integer. */
  lemma IntToDecimalRoundTrip(i: int)
    ensures ParseInt(IntToDecimal(i)) == Some(i)
  {
    if i < 0 {
      NatToDecimalRoundTrip(-i);
      assert IntToDecimal(i)[1..] == NatToDecimal(-i);
    } else {
      NatToDecimalRoundTrip(i);
    }
  }

  /** Whatever the reading accepts is the formatted form of the number it reads. */
  lemma ParseIntCanonical(s: string)
    requires ParseInt(s).Some?
    ensures IntToDecimal(ParseInt(s).value) == s
  {
    if s[0] == '-' {
      var t := s[1..];
      NatDecimalCanonical(t);
      assert s == "-" + t;
    } else {
      NatDecimalCanonical(s);
    }
  }
}
