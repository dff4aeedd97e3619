/**
 * Turning a raw model reply into plain text: `extractGeneral` for a tagged
 * reply (a `<final>` answer, or the reply stripped of thinking blocks and of
 * markup tags) and `extractKimi` for a reasoning model's structured message.
 * Both source files carry identical copies of these two functions.
 */
module Extract {
  import opened Wrappers
  import opened Text
  import opened Payloads

  const FinalOpen := "<final>"
  const FinalClose := "</final>"
  const ThinkOpen := "<think"
  const ThinkClose := "</think>"
  const AnalysisOpen := "<analysis"
  const AnalysisClose := "</analysis>"
  const ReflectionOpen := "<reflection"
  const ReflectionClose := "</reflection>"

  // ---------------------------------------------------------------------
  // extractGeneral
  // ---------------------------------------------------------------------

  /**
   * The match of `/<final>([\s\S]*?)<\/final>/i`: the position `i` of the
   * opening tag and `j` of the closing tag. JavaScript picks the leftmost
   * start from which a match exists and then the nearest closing tag.
   */
  function FinalSpan(s: string): (r: Option<(nat, nat)>)
    ensures r.Some? ==>
      var (i, j) := r.value;
      i + |FinalOpen| <= j && MatchAtCI(s, i, FinalOpen) && MatchAtCI(s, j, FinalClose)
      && (forall k :: 0 <= k < i ==> !MatchAtCI(s, k, FinalOpen))
      && (forall k :: i + |FinalOpen| <= k < j ==> !MatchAtCI(s, k, FinalClose))
    ensures r.None? ==>
      forall i: nat, j: nat :: MatchAtCI(s, i, FinalOpen) && i + |FinalOpen| <= j ==> !MatchAtCI(s, j, FinalClose)
  {
    match IndexOfCI(s, FinalOpen, 0)
    case None => None
    case Some(i) =>
      match IndexOfCI(s, FinalClose, i + |FinalOpen|)
      case None => None
      case Some(j) => Some((i, j))
  }

  /** `m && m[1]`: the captured text between the tags, when there is a match and the capture is not empty. */
  function FinalAnswer(s: string): (r: Option<string>)
    ensures r.Some? <==> FinalSpan(s).Some? && FinalSpan(s).value.1 > FinalSpan(s).value.0 + |FinalOpen|
    ensures r.Some? ==> r.value == s[FinalSpan(s).value.0 + |FinalOpen|..FinalSpan(s).value.1] && r.value != []
  {
    match FinalSpan(s)
    case None => None
    case Some((i, j)) =>
      if j > i + |FinalOpen| then Some(s[i + |FinalOpen|..j]) else None
  }

  /**
   * `s.replace(/<open[\s\S]*?close/gi, "")`: from left to right, every
   * occurrence of `open` that has a `close` somewhere after it is removed
   * together with everything up to and including the nearest such `close`.
   */
  function StripBlocks(s: string, open: string, close: string): (r: string)
    requires open != []
    decreases |s|
    ensures |r| <= |s|
    ensures forall k :: 0 <= k < |r| ==> r[k] in s
  {
    if s == [] then []
    else if MatchAtCI(s, 0, open) && IndexOfCI(s, close, |open|).Some? then
      var j := IndexOfCI(s, close, |open|).value;
      var r := StripBlocks(s[j + |close|..], open, close);
      assert forall m :: 0 <= m < |r| ==> r[m] in s by {
        forall m | 0 <= m < |r| ensures r[m] in s {
          assert r[m] in s[j + |close|..];
        }
      }
      r
    else
      var t := StripBlocks(s[1..], open, close);
      assert forall m :: 0 <= m < |t| ==> t[m] in s by {
        forall m | 0 <= m < |t| ensures t[m] in s {
          assert t[m] in s[1..];
        }
      }
      [s[0]] + t
  }

  /**
   * No match of `/<[^>]+>/` is left: once a `<` is followed by a `>`
   * anywhere later, it is followed by one immediately.
   */
  predicate NoTag(t: string) {
    forall i, k :: 0 <= i < k < |t| && t[i] == '<' && t[k] == '>' ==> t[i + 1] == '>'
  }

  /** Putting one character in front of tag-free text keeps it tag-free when that character cannot open a tag. */
  lemma NoTagCons(c: char, t: string)
    requires NoTag(t)
    requires c == '<' ==> (t != [] && t[0] == '>') || (forall k :: 0 <= k < |t| ==> t[k] != '>')
    ensures NoTag([c] + t)
  {
    var u := [c] + t;
    forall i, k | 0 <= i < k < |u| && u[i] == '<' && u[k] == '>' ensures u[i + 1] == '>' {
      if i > 0 {
        assert t[i - 1] == '<' && t[k - 1] == '>';
      } else {
        assert t[k - 1] == '>';
      }
    }
  }

  /** Any slice of tag-free text is tag-free. */
  lemma NoTagSlice(t: string, a: nat, b: nat)
    requires NoTag(t) && a <= b <= |t|
    ensures NoTag(t[a..b])
  {
    var u := t[a..b];
    forall i, k | 0 <= i < k < |u| && u[i] == '<' && u[k] == '>' ensures u[i + 1] == '>' {
      assert t[a + i] == '<' && t[a + k] == '>';
    }
  }

  /**
   * `s.replace(/<[^>]+>/g, "")`: a `<` that is followed by at least one
   * character other than `>` and then by a `>` is removed through that `>`.
   * The result is tag-free and keeps only characters of `s`.
   */
  function StripTags(s: string): (r: string)
    decreases |s|
    ensures NoTag(r)
    ensures forall k :: 0 <= k < |r| ==> r[k] in s
    ensures s != [] && s[0] == '>' ==> r != [] && r[0] == '>'
  {
    if s == [] then []
    else if s[0] == '<' && |s| >= 2 && s[1] != '>' && IndexOfChar(s, '>', 2).Some? then
      var k := IndexOfChar(s, '>', 2).value;
      var r := StripTags(s[k + 1..]);
      assert forall m :: 0 <= m < |r| ==> r[m] in s by {
        forall m | 0 <= m < |r| ensures r[m] in s {
          var w :| w in s[k + 1..] && w == r[m];
        }
      }
      r
    else
      var t := StripTags(s[1..]);
      assert forall m :: 0 <= m < |t| ==> t[m] in s by {
        forall m | 0 <= m < |t| ensures t[m] in s {
          assert t[m] in s[1..];
        }
      }
      assert s[0] == '<' && |s| >= 2 && s[1] != '>' ==> forall m :: 0 <= m < |t| ==> t[m] != '>' by {
        if s[0] == '<' && |s| >= 2 && s[1] != '>' {
          forall m | 0 <= m < |t| ensures t[m] != '>' {
            assert t[m] in s[1..];
            var p :| 0 <= p < |s[1..]| && s[1..][p] == t[m];
            assert s[p + 1] == t[m];
          }
        }
      }
      NoTagCons(s[0], t);
      [s[0]] + t
  }

  /** The three block kinds `extractGeneral` removes, in its order. */
  function StripThinking(s: string): (r: string)
    ensures |r| <= |s|
    ensures forall k :: 0 <= k < |r| ==> r[k] in s
  {
    StripBlocks(StripBlocks(StripBlocks(s, ThinkOpen, ThinkClose), AnalysisOpen, AnalysisClose), ReflectionOpen, ReflectionClose)
  }

  /**
   * `extractGeneral(s)`: the trimmed capture of the first `<final>` tag if it
   * is not empty; otherwise the text without thinking, analysis and reflection
   * blocks, without markup tags, trimmed. A falsy input gives "".
   */
  function ExtractGeneral(s: string): (r: string)
    ensures s == "" ==> r == ""
    ensures IsTrimmed(r)
    ensures FinalAnswer(s).None? ==> NoTag(r)
  {
    if s == "" then ""
    else
      match FinalAnswer(s)
      case Some(inner) => Trim(inner)
      case None =>
        var t := StripTags(StripThinking(s));
        NoTagSlice(t, WsPrefixLen(t), WsPrefixLen(t) + |Trim(t)|);
        Trim(t)
  }

  /** A closing markup tag such as `</think>` occurs nowhere in tag-free text. */
  lemma NoClosingTagIn(t: string, close: string)
    requires NoTag(t)
    requires |close| >= 3 && close[0] == '<' && close[1] == '/' && close[|close| - 1] == '>'
    ensures forall p: nat :: !MatchAtCI(t, p, close)
  {
    forall p: nat | p + |close| <= |t| ensures !MatchAtCI(t, p, close) {
      var e := p + |close| - 1;
      assert !(t[p] == '<' && t[p + 1] == '/' && t[e] == '>');
      assert Fold(t[p + 1]) == Fold(close[1]) ==> t[p + 1] == '/';
      assert Fold(t[p]) == Fold(close[0]) ==> t[p] == '<';
      assert Fold(t[p + (|close| - 1)]) == Fold(close[|close| - 1]) ==> t[e] == '>';
    }
  }

  /**
   * On the path without a usable `<final>` capture the result is trimmed, has
   * no markup tag left, and so has no closing tag of a thinking, analysis or
   * reflection block: no such block survives, whatever the nesting.
   */
  lemma StrippedReplyHasNoBlocks(s: string)
    requires FinalAnswer(s).None?
    ensures IsTrimmed(ExtractGeneral(s)) && NoTag(ExtractGeneral(s))
    ensures forall p: nat :: !MatchAtCI(ExtractGeneral(s), p, ThinkClose)
    ensures forall p: nat :: !MatchAtCI(ExtractGeneral(s), p, AnalysisClose)
    ensures forall p: nat :: !MatchAtCI(ExtractGeneral(s), p, ReflectionClose)
  {
    NoBlockClosers(ExtractGeneral(s));
  }

  /** Tag-free text holds none of the three closing tags. */
  lemma NoBlockClosers(r: string)
    requires NoTag(r)
    ensures forall p: nat :: !MatchAtCI(r, p, ThinkClose)
    ensures forall p: nat :: !MatchAtCI(r, p, AnalysisClose)
    ensures forall p: nat :: !MatchAtCI(r, p, ReflectionClose)
  {
    NoClosingTagIn(r, ThinkClose);
    NoClosingTagIn(r, AnalysisClose);
    NoClosingTagIn(r, ReflectionClose);
  }

  /** A match within the middle part of a concatenation is a match in that part. */
  lemma MatchInMiddle(x: string, y: string, z: string, k: nat, pat: string)
    requires k + |pat| <= |y|
    ensures MatchAtCI(x + y + z, |x| + k, pat) <==> MatchAtCI(y, k, pat)
  {
    var s := x + y + z;
    assert forall m :: 0 <= m < |pat| ==> (Fold(s[|x| + k + m]) == Fold(pat[m]) <==> Fold(y[k + m]) == Fold(pat[m]));
  }

  /** The leftmost opening tag and the nearest closing tag after it determine the `<final>` match. */
  lemma FinalSpanIs(s: string, i: nat, j: nat)
    requires MatchAtCI(s, i, FinalOpen) && (forall k :: 0 <= k < i ==> !MatchAtCI(s, k, FinalOpen))
    requires i + |FinalOpen| <= j && MatchAtCI(s, j, FinalClose)
    requires forall k :: i + |FinalOpen| <= k < j ==> !MatchAtCI(s, k, FinalClose)
    ensures FinalSpan(s) == Some((i, j))
  {
    var oi := IndexOfCI(s, FinalOpen, 0);
    assert oi == Some(i);
    var oj := IndexOfCI(s, FinalClose, i + |FinalOpen|);
    assert oj == Some(j);
  }

  /** A pattern put after a text matches right there. */
  lemma PatternAfter(y: string, pat: string)
    ensures MatchAtCI(y + pat, |y|, pat)
  {
    assert forall m :: 0 <= m < |pat| ==> (y + pat)[|y| + m] == pat[m];
  }

  /** Positions of `y` without a match keep having none once `y` is put between `x` and `z`. */
  lemma NoMatchShifted(x: string, y: string, z: string, n: nat, pat: string)
    requires n + |pat| <= |y|
    requires forall k :: 0 <= k < n ==> !MatchAtCI(y, k, pat)
    ensures forall k :: |x| <= k < |x| + n ==> !MatchAtCI(x + y + z, k, pat)
  {
    forall k | |x| <= k < |x| + n ensures !MatchAtCI(x + y + z, k, pat) {
      MatchInMiddle(x, y, z, k - |x|, pat);
    }
  }

  /** In `head + rest`, the leftmost `<final>` is the one that ends `head`. */
  lemma {:induction false} OpenerIsLeftmost(pre: string, rest: string)
    requires forall k :: 0 <= k < |pre| ==> !MatchAtCI(pre + FinalOpen, k, FinalOpen)
    ensures MatchAtCI(pre + FinalOpen + rest, |pre|, FinalOpen)
    ensures forall k :: 0 <= k < |pre| ==> !MatchAtCI(pre + FinalOpen + rest, k, FinalOpen)
  {
    var head := pre + FinalOpen;
    PatternAfter(pre, FinalOpen);
    assert head + rest == [] + head + rest;
    MatchInMiddle([], head, rest, |pre|, FinalOpen);
    NoMatchShifted([], head, rest, |pre|, FinalOpen);
  }

  /** In `head + answer + </final> + post`, the nearest `</final>` after `head` is the one after `answer`. */
  lemma {:induction false} CloserIsNearest(head: string, answer: string, post: string)
    requires forall k :: 0 <= k < |answer| ==> !MatchAtCI(answer + FinalClose, k, FinalClose)
    ensures MatchAtCI(head + (answer + FinalClose) + post, |head| + |answer|, FinalClose)
    ensures forall k :: |head| <= k < |head| + |answer| ==> !MatchAtCI(head + (answer + FinalClose) + post, k, FinalClose)
  {
    PatternAfter(answer, FinalClose);
    MatchInMiddle(head, answer + FinalClose, post, |answer|, FinalClose);
    NoMatchShifted(head, answer + FinalClose, post, |answer|, FinalClose);
  }

  /**
   * A `<final>` tag wins: when the first opening tag is followed by a
   * non-empty answer with no closing tag inside it, the result is that answer
   * trimmed, whatever thinking blocks or markup come before or after.
   */
  lemma {:induction false} FinalTagWins(pre: string, answer: string, post: string)
    requires forall k :: 0 <= k < |pre| ==> !MatchAtCI(pre + FinalOpen, k, FinalOpen)
    requires answer != []
    requires forall k :: 0 <= k < |answer| ==> !MatchAtCI(answer + FinalClose, k, FinalClose)
    ensures ExtractGeneral(pre + FinalOpen + answer + FinalClose + post) == Trim(answer)
  {
    var head, body := pre + FinalOpen, answer + FinalClose;
    var s := head + body + post;
    Regrouped(pre, FinalOpen, answer, FinalClose, post);
    OpenerIsLeftmost(pre, body + post);
    CloserIsNearest(head, answer, post);
    var i, j := |pre|, |head| + |answer|;
    FinalReplyAt(s, i, j);
    MiddleSlice(head, answer, FinalClose + post);
  }

  /** Proof helper: the groupings of a five-part concatenation the proof above moves between. */
  lemma Regrouped(a: string, b: string, c: string, d: string, e: string)
    ensures a + b + c + d + e == (a + b) + (c + d) + e
    ensures (a + b) + (c + d) + e == (a + b) + ((c + d) + e)
    ensures (a + b) + (c + d) + e == (a + b) + c + (d + e)
  {
  }

  /** Proof helper: the middle part of a concatenation of three is found between their lengths. */
  lemma MiddleSlice(x: string, y: string, z: string)
    ensures (x + y + z)[|x|..|x| + |y|] == y
  {
    assert forall k :: 0 <= k < |y| ==> (x + y + z)[|x| + k] == y[k];
  }

  /** The leftmost opening tag and the nearest closing tag after it, around a non-empty capture, give the reply. */
  lemma FinalReplyAt(s: string, i: nat, j: nat)
    requires MatchAtCI(s, i, FinalOpen) && (forall k :: 0 <= k < i ==> !MatchAtCI(s, k, FinalOpen))
    requires i + |FinalOpen| < j && MatchAtCI(s, j, FinalClose)
    requires forall k :: i + |FinalOpen| <= k < j ==> !MatchAtCI(s, k, FinalClose)
    ensures ExtractGeneral(s) == Trim(s[i + |FinalOpen|..j])
  {
    FinalSpanIs(s, i, j);
    FinalAnswerIs(s, i, j);
  }

  /** With a `<final>` match around a non-empty capture, the reply is the capture trimmed. */
  lemma FinalAnswerIs(s: string, i: nat, j: nat)
    requires FinalSpan(s) == Some((i, j)) && j > i + |FinalOpen|
    ensures ExtractGeneral(s) == Trim(s[i + |FinalOpen|..j])
  {
    assert FinalAnswer(s) == Some(s[i + |FinalOpen|..j]);
  }

  /** The first match at or after `from` is at `j` when `j` matches and nothing between does. */
  lemma IndexOfCIIs(s: string, pat: string, from: nat, j: nat)
    requires from <= j && MatchAtCI(s, j, pat)
    requires forall k :: from <= k < j ==> !MatchAtCI(s, k, pat)
    ensures IndexOfCI(s, pat, from) == Some(j)
  {
  }

  /** An opening tag at the front whose nearest closing tag is at `j` makes the scan resume after that tag. */
  lemma {:induction false} StripBlocksAtOpener(s: string, open: string, close: string, j: nat)
    requires open != [] && MatchAtCI(s, 0, open) && IndexOfCI(s, close, |open|) == Some(j)
    ensures StripBlocks(s, open, close) == StripBlocks(s[j + |close|..], open, close)
  {
    var o := IndexOfCI(s, close, |open|);
    assert s != [] && o.Some? && o.value == j;
  }

  /** A block whose opening tag starts the text, closed by the first closing tag after it, is removed. */
  lemma LeadingBlockRemoved(open: string, mid: string, close: string, rest: string)
    requires open != []
    requires forall k :: |open| <= k < |open| + |mid| ==> !MatchAtCI(open + mid + close + rest, k, close)
    ensures StripBlocks(open + mid + close + rest, open, close) == StripBlocks(rest, open, close)
  {
    var s := open + mid + close + rest;
    assert MatchAtCI(s, 0, open) by {
      assert forall m :: 0 <= m < |open| ==> s[m] == open[m];
    }
    var j := |open| + |mid|;
    assert MatchAtCI(s, j, close) by {
      assert forall m :: 0 <= m < |close| ==> s[j + m] == close[m];
    }
    IndexOfCIIs(s, close, |open|, j);
    StripBlocksAtOpener(s, open, close, j);
    assert s[j + |close|..] == rest;
  }

  /** Text in which the opening tag occurs nowhere is left as it is. */
  lemma {:induction false} StripBlocksUnmatched(s: string, open: string, close: string)
    requires open != [] && forall k: nat :: !MatchAtCI(s, k, open)
    ensures StripBlocks(s, open, close) == s
    decreases |s|
  {
    if s != [] {
      forall k: nat ensures !MatchAtCI(s[1..], k, open) {
        if k + |open| <= |s[1..]| {
          assert s == [s[0]] + s[1..] + [];
          MatchInMiddle([s[0]], s[1..], [], k, open);
        }
      }
      StripBlocksUnmatched(s[1..], open, close);
    }
  }

  /** A match in the tail of a text is a match one position further in the text. */
  lemma MatchInTail(s: string, k: nat, pat: string)
    requires s != []
    ensures MatchAtCI(s[1..], k, pat) <==> MatchAtCI(s, k + 1, pat)
  {
    if k + |pat| <= |s[1..]| {
      assert s == [s[0]] + s[1..] + [];
      MatchInMiddle([s[0]], s[1..], [], k, pat);
    }
  }

  /** Text before the first opening tag is kept as it is, and the scan goes on after it. */
  lemma {:induction false} StripBlocksKeepsPrefix(x: string, y: string, open: string, close: string)
    requires open != [] && forall k :: 0 <= k < |x| ==> !MatchAtCI(x + y, k, open)
    ensures StripBlocks(x + y, open, close) == x + StripBlocks(y, open, close)
    decreases |x|
  {
    if x == [] {
      assert x + y == y;
    } else {
      NoOpenerInTail(x, y, open);
      StripBlocksKeepsPrefix(x[1..], y, open, close);
      StripBlocksKeepsFirst(x + y, open, close);
      ConsOfTail(x, y, StripBlocks(y, open, close));
    }
  }

  /** No opening tag in the first part of a concatenation: none in the first part of its tail either. */
  lemma NoOpenerInTail(x: string, y: string, open: string)
    requires x != [] && forall k :: 0 <= k < |x| ==> !MatchAtCI(x + y, k, open)
    ensures (x + y)[1..] == x[1..] + y && !MatchAtCI(x + y, 0, open)
    ensures forall k :: 0 <= k < |x[1..]| ==> !MatchAtCI(x[1..] + y, k, open)
  {
    var s := x + y;
    assert s[1..] == x[1..] + y;
    forall k | 0 <= k < |x[1..]| ensures !MatchAtCI(x[1..] + y, k, open) {
      MatchInTail(s, k, open);
    }
  }

  /** The first character of a non-empty text in front of what follows it and of anything appended. */
  lemma ConsOfTail(x: string, y: string, r: string)
    requires x != []
    ensures (x + y)[0] == x[0] && (x + y)[1..] == x[1..] + y
    ensures [x[0]] + (x[1..] + r) == x + r
  {
    assert x == [x[0]] + x[1..];
  }

  /** The first character of a text that no opening tag starts is kept. */
  lemma StripBlocksKeepsFirst(s: string, open: string, close: string)
    requires open != [] && s != [] && !MatchAtCI(s, 0, open)
    ensures StripBlocks(s, open, close) == [s[0]] + StripBlocks(s[1..], open, close)
  {
  }

  /** When no opening tag is followed by a closing tag, the text has no block and is left as it is. */
  lemma {:induction false} StripBlocksNoClosedBlock(s: string, open: string, close: string)
    requires open != []
    requires forall p: nat, k: nat :: MatchAtCI(s, p, open) && p + |open| <= k ==> !MatchAtCI(s, k, close)
    ensures StripBlocks(s, open, close) == s
    decreases |s|
  {
    if s != [] {
      assert MatchAtCI(s, 0, open) ==> IndexOfCI(s, close, |open|).None?;
      forall p: nat, k: nat | MatchAtCI(s[1..], p, open) && p + |open| <= k ensures !MatchAtCI(s[1..], k, close) {
        MatchInTail(s, p, open);
        MatchInTail(s, k, close);
      }
      StripBlocksNoClosedBlock(s[1..], open, close);
    }
  }

  /** An opening tag at the front with no closing tag anywhere after it is kept, and so is the rest. */
  lemma StripBlocksKeepsUnclosed(s: string, open: string, close: string)
    requires open != [] && MatchAtCI(s, 0, open) && forall k :: |open| <= k ==> !MatchAtCI(s, k, close)
    ensures StripBlocks(s, open, close) == s
  {
    StripBlocksNoClosedBlock(s, open, close);
  }

  /** No opening tag (they all start with '<') can match inside a prefix without '<'. */
  lemma NoOpenerInPlain(x: string, z: string, open: string)
    requires open != [] && open[0] == '<' && '<' !in x
    ensures forall k :: 0 <= k < |x| ==> !MatchAtCI(x + z, k, open)
  {
    forall k | 0 <= k < |x| ensures !MatchAtCI(x + z, k, open) {
      assert (x + z)[k] == x[k];
      FoldOfSymbol(x[k], '<');
      assert Fold((x + z)[k + 0]) != Fold(open[0]);
    }
  }

  /** A prefix without '<' goes through all three passes unchanged, in front of what they leave of the rest. */
  lemma StripThinkingKeepsPlain(x: string, y: string)
    requires '<' !in x
    ensures StripThinking(x + y) == x + StripThinking(y)
  {
    var t := StripBlocks(y, ThinkOpen, ThinkClose);
    var a := StripBlocks(t, AnalysisOpen, AnalysisClose);
    NoOpenerInPlain(x, y, ThinkOpen);
    StripBlocksKeepsPrefix(x, y, ThinkOpen, ThinkClose);
    NoOpenerInPlain(x, t, AnalysisOpen);
    StripBlocksKeepsPrefix(x, t, AnalysisOpen, AnalysisClose);
    NoOpenerInPlain(x, a, ReflectionOpen);
    StripBlocksKeepsPrefix(x, a, ReflectionOpen, ReflectionClose);
  }

  /** Text with no closing tag of any of the three kinds goes through all three passes unchanged. */
  lemma StripThinkingWithoutClosers(s: string)
    requires forall k: nat :: !MatchAtCI(s, k, ThinkClose)
    requires forall k: nat :: !MatchAtCI(s, k, AnalysisClose)
    requires forall k: nat :: !MatchAtCI(s, k, ReflectionClose)
    ensures StripThinking(s) == s
  {
    StripBlocksNoClosedBlock(s, ThinkOpen, ThinkClose);
    StripBlocksNoClosedBlock(s, AnalysisOpen, AnalysisClose);
    StripBlocksNoClosedBlock(s, ReflectionOpen, ReflectionClose);
  }

  /** A tag pattern cannot occur in text without '<'. */
  lemma NoTagMatchWithoutLt(s: string, pat: string)
    requires pat != [] && pat[0] == '<' && '<' !in s
    ensures forall k: nat :: !MatchAtCI(s, k, pat)
  {
    forall k: nat | k + |pat| <= |s| ensures !MatchAtCI(s, k, pat) {
      FoldOfSymbol(s[k + 0], '<');
      assert Fold(s[k + 0]) != Fold(pat[0]);
    }
  }

  /** Text without '<' has no markup tag to remove. */
  lemma {:induction false} StripTagsWithoutTag(s: string)
    requires '<' !in s
    ensures StripTags(s) == s
    decreases |s|
  {
    if s != [] {
      assert '<' !in s[1..] by {
        forall m | 0 <= m < |s[1..]| ensures s[1..][m] != '<' { assert s[1..][m] == s[m + 1]; }
      }
      StripTagsWithoutTag(s[1..]);
    }
  }

  /** Text before the first '<' is kept as it is by the tag removal. */
  lemma {:induction false} StripTagsKeepsPlain(x: string, y: string)
    requires '<' !in x
    ensures StripTags(x + y) == x + StripTags(y)
    decreases |x|
  {
    if x != [] {
      assert '<' !in x[1..] by {
        forall m | 0 <= m < |x[1..]| ensures x[1..][m] != '<' { assert x[1..][m] == x[m + 1]; }
      }
      StripTagsKeepsPlain(x[1..], y);
      ConsOfTail(x, y, StripTags(y));
      StripTagsKeepsFirst(x + y);
    } else {
      assert x + y == y;
    }
  }

  /** The first character of a text that does not start with '<' is kept. */
  lemma StripTagsKeepsFirst(s: string)
    requires s != [] && s[0] != '<'
    ensures StripTags(s) == [s[0]] + StripTags(s[1..])
  {
  }

  /** A tag `<m>`, with `m` non-empty and free of '>', is removed together with its brackets. */
  lemma StripTagsDropsTag(m: string, y: string)
    requires m != [] && '>' !in m
    ensures StripTags("<" + m + ">" + y) == StripTags(y)
  {
    var s := "<" + m + ">" + y;
    var k := |m| + 1;
    assert s[k] == '>';
    assert forall i :: 1 <= i < k ==> s[i] == m[i - 1];
    assert s[1] != '>' by { assert s[1] == m[0]; }
    assert IndexOfChar(s, '>', 2) == Some(k);
    assert s[k + 1..] == y;
  }

  /** A '<' that opens no tag (last, right before '>', or with no '>' after the next character) is kept. */
  lemma StripTagsKeepsLoneLt(y: string)
    requires y == [] || y[0] == '>' || '>' !in y[1..]
    ensures StripTags("<" + y) == "<" + StripTags(y)
  {
    var s := "<" + y;
    assert s[1..] == y;
    if y != [] && y[0] != '>' {
      assert forall i :: 2 <= i < |s| ==> s[i] == y[1..][i - 2];
      assert IndexOfChar(s, '>', 2).None?;
    }
  }

  /** With no `<final>` opening tag anywhere there is no usable `<final>` capture. */
  lemma NoFinalWithoutOpener(s: string)
    requires forall k: nat :: !MatchAtCI(s, k, FinalOpen)
    ensures FinalAnswer(s).None?
  {
  }

  /** Without a `<final>` capture, the reply is the trimmed text left by the two stripping passes. */
  lemma StrippedReplyIs(s: string)
    requires s != [] && FinalAnswer(s).None?
    ensures ExtractGeneral(s) == Trim(StripTags(StripThinking(s)))
  {
  }

  // ---------------------------------------------------------------------
  // extractKimi
  // ---------------------------------------------------------------------

  /** Pieces put back together with a line feed between each two. */
  function JoinLines(ls: seq<string>): string
    requires |ls| >= 1
  {
    if |ls| == 1 then ls[0] else ls[0] + "\n" + JoinLines(ls[1..])
  }

  /** `s` with every "\r\n" written as a single line feed. */
  function CrlfToLf(s: string): string {
    if s == [] then []
    else if |s| >= 2 && s[0] == '\r' && s[1] == '\n' then "\n" + CrlfToLf(s[2..])
    else [s[0]] + CrlfToLf(s[1..])
  }

  /**
   * `x.split(/\r?\n/)`: the pieces between line breaks ("\n" or "\r\n").
   * No piece holds a line feed, and joining the pieces with line feeds gives
   * back `s` with its "\r\n" breaks written as "\n", which fixes the pieces.
   */
  function Lines(s: string): (ls: seq<string>)
    decreases |s|
    ensures |ls| >= 1
    ensures forall k :: 0 <= k < |ls| ==> '\n' !in ls[k]
    ensures JoinLines(ls) == CrlfToLf(s)
  {
    if s == [] then [[]]
    else if s[0] == '\n' then
      var rest := Lines(s[1..]);
      assert ([[]] + rest)[1..] == rest;
      [[]] + rest
    else if |s| >= 2 && s[0] == '\r' && s[1] == '\n' then
      var rest := Lines(s[2..]);
      assert ([[]] + rest)[1..] == rest;
      [[]] + rest
    else
      var rest := Lines(s[1..]);
      var ls := [[s[0]] + rest[0]] + rest[1..];
      assert JoinLines(ls) == [s[0]] + JoinLines(rest) by {
        if |rest| > 1 {
          assert ls[1..] == rest[1..];
          assert JoinLines(ls) == ([s[0]] + rest[0]) + "\n" + JoinLines(rest[1..]);
        }
      }
      ls
  }

  /** Text without a line feed is a single line. */
  lemma {:induction false} LinesWithoutBreak(x: string)
    requires '\n' !in x
    ensures Lines(x) == [x]
    decreases |x|
  {
    if x != [] {
      assert '\n' !in x[1..] by {
        forall m | 0 <= m < |x[1..]| ensures x[1..][m] != '\n' { assert x[1..][m] == x[m + 1]; }
      }
      LinesWithoutBreak(x[1..]);
      assert !(|x| >= 2 && x[1] == '\n');
      assert [x[0]] + x[1..] == x;
    }
  }

  /** A string with a visible character has a line with a visible character. */
  lemma {:induction false} VisibleLineExists(s: string)
    requires !IsBlank(s)
    ensures exists k :: 0 <= k < |Lines(s)| && !IsBlank(Lines(s)[k])
  {
    var ls := Lines(s);
    if !IsWs(s[0]) {
      assert s[0] != '\n' && s[0] != '\r';
      var rest := Lines(s[1..]);
      assert ls[0] == [s[0]] + rest[0];
      assert !IsBlank(ls[0]) by { assert ls[0][0] == s[0]; }
    } else {
      var d := if s[0] == '\n' then 1 else if |s| >= 2 && s[0] == '\r' && s[1] == '\n' then 2 else 1;
      assert !IsBlank(s[d..]) by {
        var i :| 0 <= i < |s| && !IsWs(s[i]);
        assert i >= d by { if d == 2 { assert s[1] == '\n'; } }
        assert s[d..][i - d] == s[i];
      }
      VisibleLineExists(s[d..]);
      var rest := Lines(s[d..]);
      var k :| 0 <= k < |rest| && !IsBlank(rest[k]);
      if s[0] == '\n' || (|s| >= 2 && s[0] == '\r' && s[1] == '\n') {
        assert ls == [[]] + rest;
        assert ls[k + 1] == rest[k];
      } else if k == 0 {
        assert ls[0] == [s[0]] + rest[0];
        var m :| 0 <= m < |rest[0]| && !IsWs(rest[0][m]);
        assert ls[0][m + 1] == rest[0][m];
      } else {
        assert ls[k] == rest[k];
      }
    }
  }

  /** `.filter(x => x.trim()).pop()`: the index of the last line that is not blank. */
  function LastNonBlank(ls: seq<string>): (r: Option<nat>)
    ensures r.Some? ==> r.value < |ls| && !IsBlank(ls[r.value])
    ensures r.Some? ==> forall k :: r.value < k < |ls| ==> IsBlank(ls[k])
    ensures r.None? ==> forall k :: 0 <= k < |ls| ==> IsBlank(ls[k])
  {
    if ls == [] then None
    else if !IsBlank(ls[|ls| - 1]) then Some(|ls| - 1)
    else LastNonBlank(ls[..|ls| - 1])
  }

  /** `(x.split(/\r?\n/).filter(x => x.trim()).pop() || x).trim()`. */
  function LastLine(x: string): (r: string)
    ensures IsTrimmed(r)
    ensures '\n' !in x ==> r == Trim(x)
  {
    assert '\n' !in x ==> Lines(x) == [x] by {
      if '\n' !in x { LinesWithoutBreak(x); }
    }
    match LastNonBlank(Lines(x))
    case Some(k) => Trim(Lines(x)[k])
    case None => Trim(x)
  }

  /** `typeof x === "string" && x.trim().length > 0`. */
  function Visible(x: Option<string>): (b: bool)
    ensures b <==> x.Some? && |Trim(x.value)| > 0
  {
    x.Some? && !IsBlank(x.value)
  }

  /** `c.reasoning_details?.[0]?.text`. */
  function DetailText(m: Message): (r: Option<string>)
    ensures m.reasoningDetails == [] ==> r.None?
    ensures m.reasoningDetails != [] ==> r == m.reasoningDetails[0]
  {
    if m.reasoningDetails != [] then m.reasoningDetails[0] else None
  }

  /**
   * `extractKimi(data)`: the trimmed content if visible; else the last
   * visible line of `reasoning`; else that of the first reasoning detail's
   * text; else "". The result is always trimmed, and empty only when none of
   * the three fields has a visible character.
   */
  function ExtractKimi(data: Payload): (r: string)
    ensures IsTrimmed(r)
    ensures var m := FirstMessage(data);
      r == [] <==> !Visible(m.content) && !Visible(m.reasoning) && !Visible(DetailText(m))
  {
    var m := FirstMessage(data);
    if Visible(m.content) then Trim(m.content.value)
    else if Visible(m.reasoning) then
      LastLineVisible(m.reasoning.value);
      LastLine(m.reasoning.value)
    else if Visible(DetailText(m)) then
      LastLineVisible(DetailText(m).value);
      LastLine(DetailText(m).value)
    else ""
  }

  /**
   * The last-line rule on a visible field: the answer is the trimmed last
   * visible line, so it is not empty and holds no line break.
   */
  lemma LastLineVisible(x: string)
    requires !IsBlank(x)
    ensures LastNonBlank(Lines(x)).Some?
    ensures LastLine(x) == Trim(Lines(x)[LastNonBlank(Lines(x)).value])
    ensures LastLine(x) != [] && '\n' !in LastLine(x)
  {
    VisibleLineExists(x);
    var ls := Lines(x);
    var k := LastNonBlank(ls).value;
    TrimKeepsNoNewline(ls[k]);
  }

  /** Trimming cannot introduce a line break. */
  lemma TrimKeepsNoNewline(x: string)
    requires '\n' !in x
    ensures '\n' !in Trim(x)
  {
    var n := WsPrefixLen(x);
    var r := Trim(x);
    forall m | 0 <= m < |r| ensures r[m] != '\n' {
      assert r[m] == x[n + m];
    }
  }

  /** The content field wins over both reasoning fields whenever it is visible. */
  lemma KimiPrefersContent(data: Payload)
    requires Visible(FirstMessage(data).content)
    ensures ExtractKimi(data) == Trim(FirstMessage(data).content.value)
  {
  }

  /**
   * Without visible content, a visible `reasoning` gives its last visible
   * line, trimmed: a single non-empty line, whatever the reasoning details hold.
   */
  lemma KimiFallsBackToReasoning(data: Payload)
    requires !Visible(FirstMessage(data).content) && Visible(FirstMessage(data).reasoning)
    ensures var x := FirstMessage(data).reasoning.value;
      LastNonBlank(Lines(x)).Some?
      && ExtractKimi(data) == Trim(Lines(x)[LastNonBlank(Lines(x)).value])
      && ExtractKimi(data) != [] && '\n' !in ExtractKimi(data)
  {
    LastLineVisible(FirstMessage(data).reasoning.value);
  }

  /** With neither visible content nor visible reasoning, the first reasoning detail's text gives the last visible line. */
  lemma KimiFallsBackToDetails(data: Payload)
    requires !Visible(FirstMessage(data).content) && !Visible(FirstMessage(data).reasoning)
    requires Visible(DetailText(FirstMessage(data)))
    ensures var x := DetailText(FirstMessage(data)).value;
      LastNonBlank(Lines(x)).Some?
      && ExtractKimi(data) == Trim(Lines(x)[LastNonBlank(Lines(x)).value])
      && ExtractKimi(data) != [] && '\n' !in ExtractKimi(data)
  {
    LastLineVisible(DetailText(FirstMessage(data)).value);
  }
}
