/** The optional value and the success-or-error result used throughout the model. */
module Wrappers {
  datatype Option<T> = None | Some(value: T) {
    function GetOr(default: T): T {
      if Some? then value else default
    }
  }

  datatype Result<T, E> = Ok(value: T) | Err(error: E)
}

/**
 * String primitives with JavaScript's meaning: the white-space class `\s`
 * (which `String.prototype.trim` also uses), trimming, and literal and
 * case-insensitive (`/i`) matching of a pattern at a position.
 */
module Text {
  import opened Wrappers

  /** JavaScript white space and line terminators, the set of `\s` and of `trim`. */
  predicate IsWs(c: char) {
    c == '\t' || c == '\n' || c == '\U{0B}' || c == '\U{0C}' || c == '\r' || c == ' '
    || c == '\U{A0}' || c == '\U{1680}' || ('\U{2000}' <= c <= '\U{200A}')
    || c == '\U{2028}' || c == '\U{2029}' || c == '\U{202F}' || c == '\U{205F}'
    || c == '\U{3000}' || c == '\U{FEFF}'
  }

  /** Every character is white space; `s.trim()` is then the empty (falsy) string. */
  predicate IsBlank(s: string) {
    forall i :: 0 <= i < |s| ==> IsWs(s[i])
  }

  /** Neither end is white space: `s.trim() == s`. */
  predicate IsTrimmed(s: string) {
    s == [] || (!IsWs(s[0]) && !IsWs(s[|s| - 1]))
  }

  /** Number of white-space characters at the front of `s`. */
  function WsPrefixLen(s: string): (n: nat)
    ensures n <= |s| && IsBlank(s[..n])
    ensures n == |s| || !IsWs(s[n])
  {
    if s != [] && IsWs(s[0]) then
      var n := 1 + WsPrefixLen(s[1..]);
      assert forall i :: 1 <= i < n ==> s[..n][i] == s[1..][..n - 1][i - 1];
      n
    else 0
  }

  /** `s.trimStart()`: the suffix of `s` after its leading white space. */
  function TrimStart(s: string): (r: string)
    ensures r == s[WsPrefixLen(s)..]
    ensures r == [] || !IsWs(r[0])
  {
    s[WsPrefixLen(s)..]
  }

  /** `s.trimEnd()`: the prefix of `s` before its trailing white space. */
  function TrimEnd(s: string): (r: string)
    ensures |r| <= |s| && r == s[..|r|]
    ensures IsBlank(s[|r|..])
    ensures r == [] || !IsWs(r[|r| - 1])
  {
    if s != [] && IsWs(s[|s| - 1]) then
      var r := TrimEnd(s[..|s| - 1]);
      assert s[|r|..] == s[..|s| - 1][|r|..] + [s[|s| - 1]];
      r
    else s
  }

  /**
   * `s.trim()`: the slice of `s` between its blank prefix and its blank
   * suffix, with no white space at either end; empty exactly when `s` is blank.
   */
  function Trim(s: string): (r: string)
    ensures IsTrimmed(r)
    ensures WsPrefixLen(s) + |r| <= |s| && r == s[WsPrefixLen(s)..WsPrefixLen(s) + |r|]
    ensures IsBlank(s[..WsPrefixLen(s)]) && IsBlank(s[WsPrefixLen(s) + |r|..])
    ensures r == [] <==> IsBlank(s)
  {
    var t := TrimStart(s);
    var r := TrimEnd(t);
    assert s[WsPrefixLen(s) + |r|..] == t[|r|..];
    assert r == [] ==> IsBlank(s) by {
      if r == [] {
        assert IsBlank(t[0..]);
        assert t == [];
        assert s[..WsPrefixLen(s)] == s;
      }
    }
    r
  }

  /** Trimming a string that is already trimmed gives it back unchanged. */
  lemma {:induction false} TrimOfTrimmed(s: string)
    requires IsTrimmed(s)
    ensures Trim(s) == s
  {
    if s != [] {
      assert WsPrefixLen(s) == 0;
      assert TrimStart(s) == s;
    }
  }

  /**
   * Case folding of the `/i` flag without `u`: a character matches a pattern
   * character when both upper-case to the same character. Modelled for the
   * ASCII and Latin-1 letters, which is exact for every pattern in this model
   * (ASCII text and the letter é).
   */
  function Fold(c: char): char {
    if 'a' <= c <= 'z' then (c as int - 32) as char
    else if '\U{E0}' <= c <= '\U{FE}' && c != '\U{F7}' then (c as int - 32) as char
    else c
  }

  /** A character that is not a letter matches, case-insensitively, only itself. */
  lemma FoldOfSymbol(c: char, d: char)
    requires !('A' <= d <= 'Z') && !('a' <= d <= 'z') && !('\U{C0}' <= d <= '\U{FE}')
    ensures Fold(c) == Fold(d) <==> c == d
  {
  }

  /** Blank text in front of `y` adds its length to the white-space prefix. */
  lemma {:induction false} WsPrefixLenAfterBlank(a: string, y: string)
    requires IsBlank(a)
    ensures WsPrefixLen(a + y) == |a| + WsPrefixLen(y)
  {
    if a != [] {
      assert (a + y)[1..] == a[1..] + y;
      WsPrefixLenAfterBlank(a[1..], y);
    } else {
      assert a + y == y;
    }
  }

  /** `pat` occurs in `s` at position `i`, comparing case-insensitively. */
  predicate MatchAtCI(s: string, i: nat, pat: string) {
    i + |pat| <= |s| && forall k :: 0 <= k < |pat| ==> Fold(s[i + k]) == Fold(pat[k])
  }

  /** `pat` occurs in `s` at position `i`, comparing exactly. */
  predicate MatchAt(s: string, i: nat, pat: string) {
    i + |pat| <= |s| && forall k :: 0 <= k < |pat| ==> s[i + k] == pat[k]
  }

  /** The first position at or after `from` where `pat` occurs case-insensitively. */
  function IndexOfCI(s: string, pat: string, from: nat): (r: Option<nat>)
    decreases |s| - from
    ensures r.Some? ==> from <= r.value <= |s| && MatchAtCI(s, r.value, pat)
    ensures r.Some? ==> forall k :: from <= k < r.value ==> !MatchAtCI(s, k, pat)
    ensures r.None? ==> forall k :: from <= k ==> !MatchAtCI(s, k, pat)
  {
    if from > |s| then None
    else if MatchAtCI(s, from, pat) then Some(from)
    else IndexOfCI(s, pat, from + 1)
  }

  /** The first position at or after `from` that holds the character `c`. */
  function IndexOfChar(s: string, c: char, from: nat): (r: Option<nat>)
    decreases |s| - from
    ensures r.Some? ==> from <= r.value < |s| && s[r.value] == c
    ensures r.Some? ==> forall k :: from <= k < r.value ==> s[k] != c
    ensures r.None? ==> forall k :: from <= k < |s| ==> s[k] != c
  {
    if from >= |s| then None
    else if s[from] == c then Some(from)
    else IndexOfChar(s, c, from + 1)
  }

  /** The first position at or after `from` where `pat` occurs exactly. */
  function IndexOf(s: string, pat: string, from: nat): (r: Option<nat>)
    decreases |s| - from
    ensures r.Some? ==> from <= r.value <= |s| && MatchAt(s, r.value, pat)
    ensures r.None? ==> forall k :: from <= k ==> !MatchAt(s, k, pat)
  {
    if from > |s| then None
    else if MatchAt(s, from, pat) then Some(from)
    else IndexOf(s, pat, from + 1)
  }

  /** `s.includes(pat)`, a case-sensitive substring test. */
  function Includes(s: string, pat: string): (b: bool)
    ensures b <==> exists i :: 0 <= i <= |s| && MatchAt(s, i, pat)
  {
    IndexOf(s, pat, 0).Some?
  }
}
