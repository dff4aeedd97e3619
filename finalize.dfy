/**
 * `finalize`: the normalisation of an extracted answer into one sentence
 * (server.mjs only; debate.mjs returns extracted text as it is).
 */
module Finalizer {
  import opened Wrappers
  import opened Text

  /** The sentence-end class `[.!?\\]` of both the split and the final test: a backslash counts too. */
  predicate IsTerminator(c: char) {
    c == '.' || c == '!' || c == '?' || c == '\\'
  }

  /** A sentence end followed by white space: a place where the split cuts. */
  predicate IsBreak(t: string, q: nat)
    requires 0 < q < |t|
  {
    IsTerminator(t[q - 1]) && IsWs(t[q])
  }

  /** No sentence end is directly followed by white space. */
  predicate SingleSentence(t: string) {
    forall q :: 0 < q < |t| ==> !IsBreak(t, q)
  }

  const EnglishPreamble := "possible answer"
  const FrenchPreamble := "réponse possible"

  // `t.replace(/^word\s*:\s*/i, "")`: a leading `word` (case-insensitive),
  // white space, a colon and white space are dropped; when the pattern does
  // not match (no word, or no colon after it) the text is left unchanged.
  function StripPreamble(t: string, word: string): (r: string)
    ensures |r| <= |t| && r == t[|t| - |r|..]
    ensures !(MatchAtCI(t, 0, word) && TrimStart(t[|word|..]) != [] && TrimStart(t[|word|..])[0] == ':') ==> r == t
  {
    if MatchAtCI(t, 0, word) then
      var u := TrimStart(t[|word|..]);
      if u != [] && u[0] == ':' then
        var r := TrimStart(u[1..]);
        assert r == t[|t| - |r|..];
        r
      else t
    else t
  }

  /** The leading run of `c` removed: every dropped character is `c`, and the rest does not start with `c`. */
  function DropLeading(t: string, c: char): (r: string)
    ensures |r| <= |t| && r == t[|t| - |r|..]
    ensures forall k :: 0 <= k < |t| - |r| ==> t[k] == c
    ensures r == [] || r[0] != c
  {
    if t != [] && t[0] == c then DropLeading(t[1..], c) else t
  }

  /** The trailing run of `c` removed: every dropped character is `c`, and the rest does not end with `c`. */
  function DropTrailing(t: string, c: char): (r: string)
    ensures |r| <= |t| && r == t[..|r|]
    ensures forall k :: |r| <= k < |t| ==> t[k] == c
    ensures r == [] || r[|r| - 1] != c
  {
    if t != [] && t[|t| - 1] == c then DropTrailing(t[..|t| - 1], c) else t
  }

  /**
   * `t.replace(/^\"+|\"+$/g, "")`: the leading run of straight quotes, then
   * the trailing run of what is left. The result is a slice of `t` with only
   * straight quotes before and after it, and it neither starts nor ends with
   * one, so it is `t` between its leading and its trailing run of quotes.
   */
  function StripQuotes(t: string): (r: string)
    ensures exists a: nat :: QuotedAround(t, a, r)
    ensures r == [] || (r[0] != '"' && r[|r| - 1] != '"')
  {
    var u := DropLeading(t, '"');
    var r := DropTrailing(u, '"');
    RunsAround(t, u, r, '"');
    assert QuotedAround(t, |t| - |u|, r);
    r
  }

  /** `r` is the slice of `t` at offset `a`, and every character of `t` before or after it is a straight quote. */
  predicate QuotedAround(t: string, a: nat, r: string) {
    a + |r| <= |t| && r == t[a..a + |r|]
    && (forall k :: 0 <= k < a ==> t[k] == '"') && (forall k :: a + |r| <= k < |t| ==> t[k] == '"')
  }

  /**
   * Dropping the leading and then the trailing run of `c` leaves a slice of
   * `t` between two runs of `c` that neither starts nor ends with `c`.
   */
  lemma RunsAround(t: string, u: string, r: string, c: char)
    requires |u| <= |t| && u == t[|t| - |u|..] && forall k :: 0 <= k < |t| - |u| ==> t[k] == c
    requires |r| <= |u| && r == u[..|r|] && forall k :: |r| <= k < |u| ==> u[k] == c
    requires (u == [] || u[0] != c) && (r == [] || r[|r| - 1] != c)
    ensures var a := |t| - |u|;
      a + |r| <= |t| && r == t[a..a + |r|]
      && (forall k :: 0 <= k < a ==> t[k] == c) && (forall k :: a + |r| <= k < |t| ==> t[k] == c)
    ensures r == [] || (r[0] != c && r[|r| - 1] != c)
  {
    var a := |t| - |u|;
    assert r != [] ==> r[0] == u[0];
    forall k | a + |r| <= k < |t| ensures t[k] == c {
      assert t[k] == u[k - a];
    }
  }

  /** `t.replace(/[“”]/g, '"')`: curly double quotes become straight ones, none is left, and everything else is kept. */
  function StraightenQuotes(t: string): (r: string)
    ensures |r| == |t|
    ensures forall k :: 0 <= k < |t| ==> r[k] == (if t[k] == '\U{201C}' || t[k] == '\U{201D}' then '"' else t[k])
    ensures forall k :: 0 <= k < |r| ==> r[k] != '\U{201C}' && r[k] != '\U{201D}'
  {
    if t == [] then []
    else [if t[0] == '\U{201C}' || t[0] == '\U{201D}' then '"' else t[0]] + StraightenQuotes(t[1..])
  }

  /** The first place at or after `q` where the split `/(?<=[\\.\\!\\?])\s+/` cuts. */
  function FirstBreak(t: string, q: nat): (r: Option<nat>)
    requires q >= 1
    decreases |t| - q
    ensures r.Some? ==> q <= r.value < |t| && IsBreak(t, r.value)
    ensures r.Some? ==> forall k :: q <= k < r.value ==> !IsBreak(t, k)
    ensures r.None? ==> forall k :: q <= k < |t| ==> !IsBreak(t, k)
  {
    if q >= |t| then None
    else if IsBreak(t, q) then Some(q)
    else FirstBreak(t, q + 1)
  }

  /**
   * `t.split(/(?<=[\\.\\!\\?])\s+/)[0] || t`: the text up to the first sentence
   * end that is followed by white space. The piece is empty only when `t` is,
   * so the `|| t` fallback never changes it.
   */
  function FirstSentence(t: string): (r: string)
    ensures |r| <= |t| && r == t[..|r|]
    ensures SingleSentence(r)
    ensures r != t ==> 0 < |r| < |t| && IsBreak(t, |r|)
  {
    match FirstBreak(t, 1)
    case None => t
    case Some(q) =>
      var r := t[..q];
      assert forall k :: 0 < k < q ==> (IsBreak(r, k) <==> IsBreak(t, k));
      r
  }

  /** A slice of a single sentence is a single sentence. */
  lemma SingleSentenceSlice(t: string, a: nat, b: nat)
    requires SingleSentence(t) && a <= b <= |t|
    ensures SingleSentence(t[a..b])
  {
    var u := t[a..b];
    forall q | 0 < q < |u| ensures !IsBreak(u, q) {
      assert u[q - 1] == t[a + q - 1] && u[q] == t[a + q];
      assert !IsBreak(t, a + q);
    }
  }

  /**
   * Lines 49-52 of `finalize`: trim, drop the two preambles, strip straight
   * quotes, then straighten curly ones. No curly quote is left, and a blank
   * input cleans to "".
   */
  function Clean(s: string): (r: string)
    ensures |r| <= |s|
    ensures forall k :: 0 <= k < |r| ==> r[k] != '\U{201C}' && r[k] != '\U{201D}'
    ensures IsBlank(s) ==> r == []
  {
    var t := StripPreamble(StripPreamble(Trim(s), EnglishPreamble), FrenchPreamble);
    var u := StripQuotes(t);
    assert |u| <= |t| by {
      var a: nat :| QuotedAround(t, a, u);
    }
    assert IsBlank(s) ==> t == [];
    StraightenQuotes(u)
  }

  /**
   * `first.trim()`: the slice of the first sentence of `t` between a blank
   * prefix and a blank suffix, trimmed and still a single sentence.
   */
  function TrimmedFirstSentence(t: string): (out: string)
    ensures var f, n := FirstSentence(t), WsPrefixLen(FirstSentence(t));
      n + |out| <= |f| && out == f[n..n + |out|] && IsBlank(f[..n]) && IsBlank(f[n + |out|..])
    ensures IsTrimmed(out) && SingleSentence(out)
  {
    var first := FirstSentence(t);
    var out := Trim(first);
    SingleSentenceSlice(first, WsPrefixLen(first), WsPrefixLen(first) + |out|);
    out
  }

  /** Lines 55-56: kept when it already ends a sentence, otherwise a period is appended. */
  function Punctuate(out: string): (r: string)
    requires IsTrimmed(out) && SingleSentence(out)
    ensures out != [] && IsTerminator(out[|out| - 1]) ==> r == out
    ensures !(out != [] && IsTerminator(out[|out| - 1])) ==> r == out + "."
    ensures r != [] && !IsWs(r[0]) && IsTerminator(r[|r| - 1]) && SingleSentence(r)
  {
    if out != [] && IsTerminator(out[|out| - 1]) then out
    else
      var r := out + ".";
      assert forall q :: 0 < q < |out| ==> (IsBreak(r, q) <==> IsBreak(out, q));
      r
  }

  /**
   * `finalize(s)`: "" for a falsy input; otherwise the trimmed first sentence
   * of the cleaned text, kept as it is exactly when it already ends in `.`,
   * `!`, `?` or `\`, and followed by a period otherwise. The result is then a
   * non-empty single sentence with no leading white space.
   */
  function Finalize(s: string): (r: string)
    ensures s == "" ==> r == ""
    ensures s != "" ==> var out := TrimmedFirstSentence(Clean(s));
      (r == out <==> out != [] && IsTerminator(out[|out| - 1])) && (r != out ==> r == out + ".")
    ensures s != "" ==> r != [] && !IsWs(r[0]) && IsTerminator(r[|r| - 1]) && SingleSentence(r)
  {
    if s == "" then "" else Punctuate(TrimmedFirstSentence(Clean(s)))
  }

  /** A falsy input is the only one that gives "": a non-empty blank input becomes ".". */
  lemma FinalizeBlank(s: string)
    requires s != [] && IsBlank(s)
    ensures Finalize(s) == "."
  {
    assert Trim(s) == [];
    assert Clean(s) == [];
    assert FirstSentence([]) == [];
    assert TrimmedFirstSentence([]) == [];
  }

  /**
   * The cut at the first sentence: when the cleaned text is a single sentence
   * `x` ending in a sentence end, followed by white space and anything else,
   * the result is `x` trimmed, and nothing of what follows.
   */
  lemma FinalizeCutsFirstSentence(s: string, x: string, y: string)
    requires Clean(s) == x + y
    requires x != [] && IsTerminator(x[|x| - 1]) && SingleSentence(x)
    requires y != [] && IsWs(y[0])
    ensures Finalize(s) == Trim(x)
  {
    assert s != [] by { assert |Clean(s)| <= |s|; }
    FirstSentenceOf(x, y);
    assert TrimmedFirstSentence(x + y) == Trim(x);
    TrimKeepsTerminator(x);
    assert Punctuate(Trim(x)) == Trim(x);
  }

  /** A single sentence ending in a sentence end, followed by white space, is the first sentence. */
  lemma FirstSentenceOf(x: string, y: string)
    requires x != [] && IsTerminator(x[|x| - 1]) && SingleSentence(x)
    requires y != [] && IsWs(y[0])
    ensures FirstSentence(x + y) == x
  {
    var t := x + y;
    assert IsBreak(t, |x|);
    forall k | 1 <= k < |x| ensures !IsBreak(t, k) {
      assert !IsBreak(x, k);
    }
    assert FirstBreak(t, 1) == Some(|x|);
    assert t[..|x|] == x;
  }

  /** Trimming text that ends in a sentence end keeps that end last, so it is not punctuated again. */
  lemma TrimKeepsTerminator(x: string)
    requires x != [] && IsTerminator(x[|x| - 1])
    ensures Trim(x) != [] && IsTerminator(Trim(x)[|Trim(x)| - 1])
  {
    var n, r := WsPrefixLen(x), Trim(x);
    assert !IsBlank(x) by { assert !IsWs(x[|x| - 1]); }
    assert r[|r| - 1] == x[|x| - 1];
  }

  /** When the cleaned text is already one trimmed sentence, `finalize` only punctuates it. */
  lemma FinalizeOfSentence(s: string, c: string)
    requires s != [] && Clean(s) == c && IsTrimmed(c) && SingleSentence(c)
    ensures Finalize(s) == Punctuate(c)
  {
    assert FirstSentence(c) == c;
    TrimOfTrimmed(c);
  }

  /** Text with no preamble, no quote at either end and no curly quote is left as it is by the cleaning steps. */
  lemma {:induction false} CleanKeepsPlain(s: string)
    requires s != [] && IsTrimmed(s) && s[0] != '"' && s[|s| - 1] != '"'
    requires !MatchAtCI(s, 0, EnglishPreamble) && !MatchAtCI(s, 0, FrenchPreamble)
    requires forall k :: 0 <= k < |s| ==> s[k] != '\U{201C}' && s[k] != '\U{201D}'
    ensures Clean(s) == s
  {
    TrimOfTrimmed(s);
    assert StripQuotes(s) == s;
    assert StraightenQuotes(s) == s;
  }

  /** Without a sentence end before the last character there is nowhere to cut. */
  lemma SentenceWithoutInnerStop(s: string)
    requires forall k :: 0 <= k < |s| - 1 ==> !IsTerminator(s[k])
    ensures SingleSentence(s)
  {
    forall q | 0 < q < |s| ensures !IsBreak(s, q) {
      assert !IsTerminator(s[q - 1]);
    }
  }

  // The preamble pattern on a text that starts with the word (in any case),
  // then a colon between blanks, then `x`, leaves exactly `x`.
  lemma {:induction false} StripPreambleOf(word: string, pre: string, a: string, b: string, x: string)
    requires |pre| == |word| && MatchAtCI(pre, 0, word)
    requires IsBlank(a) && IsBlank(b) && (x == [] || !IsWs(x[0]))
    ensures StripPreamble(pre + a + ":" + b + x, word) == x
  {
    var y := a + ":" + b + x;
    assert pre + a + ":" + b + x == pre + y;
    PreambleWordMatches(word, pre, y);
    assert a + ":" + (b + x) == y;
    ColonAfterBlank(a, b + x);
    StripPreambleAtColon(pre + y, word, b + x);
    TrimStartAfterBlank(b, x);
  }

  /** When the word matches and a colon comes first after blanks, what is left is the trimmed rest. */
  lemma StripPreambleAtColon(t: string, word: string, z: string)
    requires MatchAtCI(t, 0, word) && TrimStart(t[|word|..]) == ":" + z
    ensures StripPreamble(t, word) == TrimStart(z)
  {
    assert (":" + z)[1..] == z;
  }

  /** A text that starts with the word, in any case, matches it at 0, and what follows is the rest. */
  lemma PreambleWordMatches(word: string, pre: string, y: string)
    requires |pre| == |word| && MatchAtCI(pre, 0, word)
    ensures MatchAtCI(pre + y, 0, word) && (pre + y)[|word|..] == y
  {
    assert forall k :: 0 <= k < |pre| ==> (pre + y)[k] == pre[k];
  }

  /** Blank text, a colon, then anything: trimming the start leaves the colon and what follows. */
  lemma ColonAfterBlank(a: string, z: string)
    requires IsBlank(a)
    ensures TrimStart(a + ":" + z) == ":" + z
  {
    assert a + ":" + z == a + (":" + z);
    TrimStartAfterBlank(a, ":" + z);
  }

  /** Trimming the start of blank text followed by text that starts with no blank leaves the latter. */
  lemma TrimStartAfterBlank(a: string, y: string)
    requires IsBlank(a) && (y == [] || !IsWs(y[0]))
    ensures TrimStart(a + y) == y
  {
    WsPrefixLenAfterBlank(a, y);
    assert WsPrefixLen(y) == 0;
    assert (a + y)[|a|..] == y;
  }

  /** A preamble word followed by a colon, with what comes after it not starting with a preamble, is dropped. */
  lemma CleanDropsPreamble(word: string, pre: string, a: string, b: string, x: string)
    requires word == EnglishPreamble || word == FrenchPreamble
    requires |pre| == |word| && MatchAtCI(pre, 0, word)
    requires IsBlank(a) && IsBlank(b) && x != [] && IsTrimmed(x)
    requires !MatchAtCI(x, 0, EnglishPreamble) && !MatchAtCI(x, 0, FrenchPreamble)
    ensures Clean(pre + a + ":" + b + x) == Clean(x)
  {
    var t := pre + a + ":" + b + x;
    assert Fold(t[0]) == Fold(word[0]);
    assert Fold(t[0]) == 'P' || Fold(t[0]) == 'R';
    assert t[0] == 'p' || t[0] == 'P' || t[0] == 'r' || t[0] == 'R';
    assert t[|t| - 1] == x[|x| - 1];
    TrimOfTrimmed(t);
    TrimOfTrimmed(x);
    StripPreambleOf(word, pre, a, b, x);
    if word == FrenchPreamble {
      assert !MatchAtCI(t, 0, EnglishPreamble) by { assert Fold(t[0]) != Fold(EnglishPreamble[0]); }
    }
  }

  /** `finalize` drops a leading "possible answer:" or "réponse possible:" (in any case, with any blanks around the colon). */
  lemma FinalizeDropsPreamble(word: string, pre: string, a: string, b: string, x: string)
    requires word == EnglishPreamble || word == FrenchPreamble
    requires |pre| == |word| && MatchAtCI(pre, 0, word)
    requires IsBlank(a) && IsBlank(b) && x != [] && IsTrimmed(x)
    requires !MatchAtCI(x, 0, EnglishPreamble) && !MatchAtCI(x, 0, FrenchPreamble)
    ensures Finalize(pre + a + ":" + b + x) == Finalize(x)
  {
    CleanDropsPreamble(word, pre, a, b, x);
  }

  /** One leading `c` in front of a text that does not start with `c` is dropped. */
  lemma DropLeadingOne(x: string, c: char)
    requires x == [] || x[0] != c
    ensures DropLeading([c] + x, c) == x
  {
    assert ([c] + x)[1..] == x;
  }

  /** One trailing `c` after a text that does not end with `c` is dropped. */
  lemma DropTrailingOne(x: string, c: char)
    requires x == [] || x[|x| - 1] != c
    ensures DropTrailing(x + [c], c) == x
  {
    assert (x + [c])[..|x|] == x;
  }

  /** One straight quote at each end of a text that has none there is stripped. */
  lemma StripQuotesOfQuoted(x: string)
    requires x != [] && x[0] != '"' && x[|x| - 1] != '"'
    ensures StripQuotes("\"" + x + "\"") == x
  {
    assert "\"" + x + "\"" == ['"'] + (x + ['"']);
    DropLeadingOne(x + ['"'], '"');
    DropTrailingOne(x, '"');
  }

  /** A single leading straight quote is stripped. */
  lemma StripQuotesOfLeadingQuote(x: string)
    requires x != [] && x[0] != '"' && x[|x| - 1] != '"'
    ensures StripQuotes("\"" + x) == x
  {
    DropLeadingOne(x, '"');
  }

  /** Neither preamble pattern applies to a text that opens with a quote. */
  lemma QuoteOpensNoPreamble(t: string)
    requires t != [] && (t[0] == '"' || t[0] == '\U{201C}')
    ensures StripPreamble(t, EnglishPreamble) == t && StripPreamble(t, FrenchPreamble) == t
  {
    FoldOfSymbol(EnglishPreamble[0], t[0]);
    FoldOfSymbol(FrenchPreamble[0], t[0]);
    assert !MatchAtCI(t, 0, EnglishPreamble) by { assert Fold(t[0 + 0]) != Fold(EnglishPreamble[0]); }
    assert !MatchAtCI(t, 0, FrenchPreamble) by { assert Fold(t[0 + 0]) != Fold(FrenchPreamble[0]); }
  }

  /** On trimmed text that opens with a quote, cleaning only strips and straightens quotes. */
  lemma CleanOfQuoteOpened(t: string)
    requires t != [] && IsTrimmed(t) && (t[0] == '"' || t[0] == '\U{201C}')
    ensures Clean(t) == StraightenQuotes(StripQuotes(t))
  {
    TrimOfTrimmed(t);
    QuoteOpensNoPreamble(t);
  }

  /** Text without curly quotes is left as it is by the straightening. */
  lemma {:induction false} StraightenPlain(x: string)
    requires forall k :: 0 <= k < |x| ==> x[k] != '\U{201C}' && x[k] != '\U{201D}'
    ensures StraightenQuotes(x) == x
  {
    assert forall k :: 0 <= k < |x| ==> StraightenQuotes(x)[k] == x[k];
  }

  /** Text with no straight quote at either end is left as it is by the quote stripping. */
  lemma StripQuotesKeeps(t: string)
    requires t != [] && t[0] != '"' && t[|t| - 1] != '"'
    ensures StripQuotes(t) == t
  {
    assert DropLeading(t, '"') == t;
    assert DropTrailing(t, '"') == t;
  }

  /** The cleaning steps reduce a trimmed text after one straight quote to the text. */
  lemma CleanOfLeadingQuote(x: string)
    requires x != [] && IsTrimmed(x) && x[0] != '"' && x[|x| - 1] != '"'
    requires forall k :: 0 <= k < |x| ==> x[k] != '\U{201C}' && x[k] != '\U{201D}'
    ensures Clean("\"" + x) == x
  {
    var t := "\"" + x;
    CleanOfQuoteOpened(t);
    StripQuotesOfLeadingQuote(x);
    StraightenPlain(x);
  }

  /** The cleaning steps reduce a plain text in straight quotes to the text. */
  lemma CleanDropsQuotes(x: string)
    requires x != [] && IsTrimmed(x) && x[0] != '"' && x[|x| - 1] != '"'
    requires !MatchAtCI(x, 0, EnglishPreamble) && !MatchAtCI(x, 0, FrenchPreamble)
    requires forall k :: 0 <= k < |x| ==> x[k] != '\U{201C}' && x[k] != '\U{201D}'
    ensures Clean("\"" + x + "\"") == x
  {
    var t := "\"" + x + "\"";
    CleanOfQuoteOpened(t);
    StripQuotesOfQuoted(x);
    StraightenPlain(x);
  }

  /** Curly quotes around a text without curly quotes become straight ones, and the text is kept. */
  lemma {:induction false} StraightenCurlyQuoted(x: string)
    requires forall k :: 0 <= k < |x| ==> x[k] != '\U{201C}' && x[k] != '\U{201D}'
    ensures StraightenQuotes("\U{201C}" + x + "\U{201D}") == "\"" + x + "\""
  {
    var t, u := "\U{201C}" + x + "\U{201D}", "\"" + x + "\"";
    forall k | 0 <= k < |t| ensures StraightenQuotes(t)[k] == u[k] {
      if 0 < k < |t| - 1 {
        assert t[k] == x[k - 1] && u[k] == x[k - 1];
      }
    }
  }

  /** On text between curly quotes, cleaning only straightens the quotes. */
  lemma CleanOfCurlyOpened(t: string)
    requires |t| >= 2 && t[0] == '\U{201C}' && t[|t| - 1] == '\U{201D}'
    ensures Clean(t) == StraightenQuotes(t)
  {
    CleanOfQuoteOpened(t);
    StripQuotesKeeps(t);
  }

  /** Curly quotes around a text without curly quotes survive the cleaning, straightened. */
  lemma CleanOfCurlyQuoted(x: string)
    requires forall k :: 0 <= k < |x| ==> x[k] != '\U{201C}' && x[k] != '\U{201D}'
    ensures Clean("\U{201C}" + x + "\U{201D}") == "\"" + x + "\""
  {
    var t := "\U{201C}" + x + "\U{201D}";
    assert t[0] == '\U{201C}' && t[|t| - 1] == '\U{201D}';
    CleanOfCurlyOpened(t);
    StraightenCurlyQuoted(x);
  }


  /** `finalize` drops one pair of straight quotes around a plain text. */
  lemma FinalizeDropsQuotes(x: string)
    requires x != [] && IsTrimmed(x) && x[0] != '"' && x[|x| - 1] != '"'
    requires !MatchAtCI(x, 0, EnglishPreamble) && !MatchAtCI(x, 0, FrenchPreamble)
    requires forall k :: 0 <= k < |x| ==> x[k] != '\U{201C}' && x[k] != '\U{201D}'
    ensures Finalize("\"" + x + "\"") == Finalize(x)
  {
    CleanDropsQuotes(x);
    CleanKeepsPlain(x);
  }
}
