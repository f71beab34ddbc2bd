/**
 * Character classes and string searches used by the cursor-context parser
 * (Parser/XmlContextParser.cs, regions "Helpers").  The .NET library calls the
 * parser relies on (String.IndexOf, String.LastIndexOf) are given here as
 * recursive functions with the meaning .NET documents for them.
 */
module XmlText {

  // ---------------------------------------------------------------------------
  // Character classes.  char.IsWhiteSpace / IsLetter / IsLetterOrDigit are
  // restricted to Latin-1 whitespace and ASCII letters and digits.
  // ---------------------------------------------------------------------------

  /** char.IsWhiteSpace on Latin-1: U+0009..U+000D, space, NEL and no-break space. */
  predicate IsWhiteSpace(ch: char) {
    ('\t' <= ch <= '\r') || ch == ' ' || ch == '\U{85}' || ch == '\U{A0}'
  }

  predicate IsLetter(ch: char) {
    ('a' <= ch <= 'z') || ('A' <= ch <= 'Z')
  }

  predicate IsLetterOrDigit(ch: char) {
    IsLetter(ch) || ('0' <= ch <= '9')
  }

  predicate IsQuote(ch: char) {
    ch == '"' || ch == '\''
  }

  /** A character that ends a tag-name token. */
  predicate IsTagNameTerminator(ch: char) {
    IsWhiteSpace(ch) || ch == '>' || ch == '/' || IsQuote(ch)
  }

  predicate IsNameStartChar(ch: char) {
    IsLetter(ch) || ch == '_'
  }

  predicate IsNameChar(ch: char) {
    IsLetterOrDigit(ch) || ch == '_' || ch == '-' || ch == '.' || ch == ':'
  }

  /** How the classes relate: a name may start only with a name character,
      and whitespace, quotes, '=', '<' and the tag-name terminators end a
      name. */
  lemma CharClasses(ch: char)
    ensures IsLetter(ch) ==> IsLetterOrDigit(ch)
    ensures IsNameStartChar(ch) ==> IsNameChar(ch)
    ensures IsTagNameTerminator(ch) ==> !IsNameChar(ch)
    ensures ch == '=' || ch == '<' ==> !IsNameChar(ch) && !IsTagNameTerminator(ch)
    ensures IsWhiteSpace(ch) ==> !IsQuote(ch) && ch != '='
  {
  }

  // ---------------------------------------------------------------------------
  // Occurrences of a pattern
  // ---------------------------------------------------------------------------

  /** `pattern` occurs in `text` starting at index k. */
  predicate OccursAt(text: string, pattern: string, k: int) {
    0 <= k && k + |pattern| <= |text| && text[k..k + |pattern|] == pattern
  }

  predicate IsSuffix(a: string, b: string) {
    |a| <= |b| && b[|b| - |a|..] == a
  }

  /** `text.IndexOf(pattern, from, StringComparison.Ordinal)`: the first
      occurrence starting at or after `from`, or -1. */
  function IndexOf(text: string, pattern: string, from: nat): (r: int)
    requires |pattern| > 0
    ensures r == -1 || (from <= r && OccursAt(text, pattern, r))
    decreases |text| - from
  {
    if from + |pattern| > |text| then -1
    else if OccursAt(text, pattern, from) then from
    else IndexOf(text, pattern, from + 1)
  }

  /** The last occurrence of `pattern` starting in [limit, k], or -1. */
  function LastIndexOf(text: string, pattern: string, k: int, limit: nat): (r: int)
    requires |pattern| > 0
    ensures r == -1 || (limit <= r <= k && OccursAt(text, pattern, r))
    decreases k + 1 - limit
  {
    if k < limit then -1
    else if OccursAt(text, pattern, k) then k
    else LastIndexOf(text, pattern, k - 1, limit)
  }

  /** `text.IndexOf(c, from)`: the first index at or after `from` holding c, or -1. */
  function IndexOfChar(text: string, c: char, from: nat): (r: int)
    requires from <= |text|
    ensures r == -1 || (from <= r < |text| && text[r] == c)
    decreases |text| - from
  {
    if from == |text| then -1
    else if text[from] == c then from
    else IndexOfChar(text, c, from + 1)
  }

  /** The last index in [lo, i] holding c, or lo - 1 when there is none. */
  function LastCharAtOrBefore(text: string, c: char, lo: nat, i: int): (r: int)
    requires lo - 1 <= i < |text|
    ensures lo - 1 <= r <= i
    ensures r >= lo ==> text[r] == c
    decreases i + 1 - lo
  {
    if i < lo then lo - 1
    else if text[i] == c then i
    else LastCharAtOrBefore(text, c, lo, i - 1)
  }

  // ---------------------------------------------------------------------------
  // FindBackward / FindForward (Parser/XmlContextParser.cs:545-561)
  // ---------------------------------------------------------------------------

  /** The last occurrence of `pattern` lying wholly inside text[limit..from]
      (both ends included), or -1; -1 also when `from` is outside
      [limit, |text|). */
  function FindBackward(text: string, pattern: string, from: int, limit: nat): (r: int)
    requires |pattern| > 0
    ensures (from < limit || from >= |text|) ==> r == -1
    ensures r == -1 || (limit <= r && r + |pattern| <= from + 1 && OccursAt(text, pattern, r))
  {
    if from < limit || from >= |text| then -1
    else if from - limit + 1 < |pattern| then -1
    else LastIndexOf(text, pattern, from - |pattern| + 1, limit)
  }

  /** The first occurrence of `pattern` starting at or after `from`, or -1;
      -1 also when `from` is outside [0, |text|). */
  function FindForward(text: string, pattern: string, from: int): (r: int)
    requires |pattern| > 0
    ensures (from < 0 || from >= |text|) ==> r == -1
    ensures r == -1 || (from <= r && OccursAt(text, pattern, r))
  {
    if from < 0 || from >= |text| then -1
    else IndexOf(text, pattern, from)
  }

  // ---------------------------------------------------------------------------
  // Runs of characters (the inner scanning loops of Parser/XmlContextParser.cs)
  // ---------------------------------------------------------------------------

  /** The end of the run of name characters starting at `from`, stopping at
      `end` at the latest. */
  function NameRunEnd(text: string, from: nat, end: nat): (r: nat)
    requires end <= |text|
    ensures from <= end ==> from <= r <= end
    ensures from > end ==> r == from
    ensures r < end ==> !IsNameChar(text[r])
    decreases end - from
  {
    if from >= end || !IsNameChar(text[from]) then from
    else NameRunEnd(text, from + 1, end)
  }

  /** Every character of the run is a name character. */
  lemma {:induction false} NameRunIsNameChars(text: string, from: nat, end: nat)
    requires end <= |text|
    ensures forall k :: from <= k < NameRunEnd(text, from, end) ==> IsNameChar(text[k])
    decreases end - from
  {
    if from < end && IsNameChar(text[from]) {
      NameRunIsNameChars(text, from + 1, end);
    }
  }

  /** `while (i < end && IsNameChar(text[i])) i++;` */
  method ReadNameRun(text: string, from: nat, end: nat) returns (i: nat)
    requires end <= |text|
    ensures i == NameRunEnd(text, from, end)
  {
    i := from;
    while i < end && IsNameChar(text[i])
      invariant from <= i && (i <= end || i == from)
      invariant NameRunEnd(text, i, end) == NameRunEnd(text, from, end)
      decreases end - i
    {
      i := i + 1;
    }
  }

  /** The first index at or after `from` that is not whitespace, stopping at
      `end` at the latest. */
  function SkipWhiteSpace(text: string, from: nat, end: nat): (r: nat)
    requires end <= |text|
    ensures from <= end ==> from <= r <= end
    ensures from > end ==> r == from
    ensures r < end ==> !IsWhiteSpace(text[r])
    decreases end - from
  {
    if from >= end || !IsWhiteSpace(text[from]) then from
    else SkipWhiteSpace(text, from + 1, end)
  }

  /** `while (i < end && char.IsWhiteSpace(text[i])) i++;` */
  method SkipWhiteSpaceForward(text: string, from: nat, end: nat) returns (i: nat)
    requires end <= |text|
    ensures i == SkipWhiteSpace(text, from, end)
  {
    i := from;
    while i < end && IsWhiteSpace(text[i])
      invariant from <= i && (i <= end || i == from)
      invariant SkipWhiteSpace(text, i, end) == SkipWhiteSpace(text, from, end)
      decreases end - i
    {
      i := i + 1;
    }
  }

  /** Conversely, a run of name characters from `from` to e that stops at a
      non-name character before `end` is the one NameRunEnd finds. */
  lemma {:induction false} NameRunEndAt(text: string, from: nat, end: nat, e: nat)
    requires from <= e < end <= |text|
    requires forall k :: from <= k < e ==> IsNameChar(text[k])
    requires !IsNameChar(text[e])
    ensures NameRunEnd(text, from, end) == e
    decreases e - from
  {
    if from < e {
      NameRunEndAt(text, from + 1, end, e);
    }
  }

  /** Conversely, whitespace from `from` to e followed by a non-whitespace
      character before `end` is skipped up to e. */
  lemma {:induction false} SkipWhiteSpaceAt(text: string, from: nat, end: nat, e: nat)
    requires from <= e < end <= |text|
    requires forall k :: from <= k < e ==> IsWhiteSpace(text[k])
    requires !IsWhiteSpace(text[e])
    ensures SkipWhiteSpace(text, from, end) == e
    decreases e - from
  {
    if from < e {
      SkipWhiteSpaceAt(text, from + 1, end, e);
    }
  }

  /** Scanning backward from i down to lo over name characters: the start of
      the run of name characters that ends at i (i + 1 when text[i] is not
      one). */
  function NameRunStart(text: string, lo: nat, i: int): (r: int)
    requires i < |text|
    ensures lo <= i + 1 ==> lo <= r <= i + 1
    ensures i + 1 < lo ==> r == i + 1
    ensures r > lo ==> !IsNameChar(text[r - 1])
    decreases i + 1 - lo
  {
    if i >= lo && IsNameChar(text[i]) then NameRunStart(text, lo, i - 1) else i + 1
  }

  lemma {:induction false} NameRunStartIsNameChars(text: string, lo: nat, i: int)
    requires i < |text|
    ensures forall k :: NameRunStart(text, lo, i) <= k <= i ==> IsNameChar(text[k])
    decreases i + 1 - lo
  {
    if i >= lo && IsNameChar(text[i]) {
      NameRunStartIsNameChars(text, lo, i - 1);
    }
  }

  // ---------------------------------------------------------------------------
  // The searches find the nearest occurrence
  // ---------------------------------------------------------------------------

  lemma {:induction false} IndexOfIsFirst(text: string, pattern: string, from: nat)
    requires |pattern| > 0
    ensures var r := IndexOf(text, pattern, from);
      forall k :: from <= k && (r == -1 || k < r) ==> !OccursAt(text, pattern, k)
    decreases |text| - from
  {
    if from + |pattern| <= |text| && !OccursAt(text, pattern, from) {
      IndexOfIsFirst(text, pattern, from + 1);
    }
  }

  lemma {:induction false} LastIndexOfIsLast(text: string, pattern: string, k: int, limit: nat)
    requires |pattern| > 0
    ensures var r := LastIndexOf(text, pattern, k, limit);
      forall j :: limit <= j <= k && r < j ==> !OccursAt(text, pattern, j)
    decreases k + 1 - limit
  {
    if k >= limit && !OccursAt(text, pattern, k) {
      LastIndexOfIsLast(text, pattern, k - 1, limit);
    }
  }

  lemma {:induction false} IndexOfCharIsFirst(text: string, c: char, from: nat)
    requires from <= |text|
    ensures var r := IndexOfChar(text, c, from);
      forall k :: from <= k < |text| && (r == -1 || k < r) ==> text[k] != c
    decreases |text| - from
  {
    if from < |text| && text[from] != c {
      IndexOfCharIsFirst(text, c, from + 1);
    }
  }

  /** Conversely, the first index at or after `from` holding c is the one
      IndexOfChar finds. */
  lemma {:induction false} IndexOfCharAt(text: string, c: char, from: nat, e: nat)
    requires from <= e < |text| && text[e] == c
    requires forall k :: from <= k < e ==> text[k] != c
    ensures IndexOfChar(text, c, from) == e
    decreases e - from
  {
    if from < e {
      IndexOfCharAt(text, c, from + 1, e);
    }
  }

  lemma {:induction false} LastCharAtOrBeforeIsLast(text: string, c: char, lo: nat, i: int)
    requires lo - 1 <= i < |text|
    ensures var r := LastCharAtOrBefore(text, c, lo, i);
      forall k :: r < k <= i ==> text[k] != c
    decreases i + 1 - lo
  {
    if i >= lo && text[i] != c {
      LastCharAtOrBeforeIsLast(text, c, lo, i - 1);
    }
  }

  /** FindBackward finds the occurrence nearest to `from`. */
  lemma FindBackwardIsLast(text: string, pattern: string, from: int, limit: nat)
    requires |pattern| > 0
    requires from < |text|
    ensures var r := FindBackward(text, pattern, from, limit);
      forall k :: limit <= k && r < k && k + |pattern| <= from + 1 ==> !OccursAt(text, pattern, k)
  {
    if from >= limit && from - limit + 1 >= |pattern| {
      LastIndexOfIsLast(text, pattern, from - |pattern| + 1, limit);
    }
  }

  /** An occurrence inside the window with none after it is the one
      FindBackward finds. */
  lemma FindBackwardFinds(text: string, pattern: string, from: int, limit: nat, p: nat)
    requires |pattern| > 0 && from < |text|
    requires limit <= p && p + |pattern| <= from + 1 && OccursAt(text, pattern, p)
    requires forall k :: p < k && k + |pattern| <= from + 1 ==> !OccursAt(text, pattern, k)
    ensures FindBackward(text, pattern, from, limit) == p
  {
    FindBackwardIsLast(text, pattern, from, limit);
  }

  /** FindForward finds the occurrence nearest to `from`. */
  lemma FindForwardIsFirst(text: string, pattern: string, from: int)
    requires |pattern| > 0
    requires 0 <= from < |text|
    ensures var r := FindForward(text, pattern, from);
      forall k :: from <= k && (r == -1 || k < r) ==> !OccursAt(text, pattern, k)
  {
    IndexOfIsFirst(text, pattern, from);
  }

  // ---------------------------------------------------------------------------
  // Names (Parser/XmlContextParser.cs:632-650)
  // ---------------------------------------------------------------------------

  /** Drops a namespace prefix: everything up to and including the first ':'.
      A name without ':' is returned unchanged; only the first ':' counts. */
  function StripPrefix(name: string): (r: string)
  {
    if |name| == 0 then name
    else
      var colon := IndexOfChar(name, ':', 0);
      if colon >= 0 && colon < |name| - 1 then name[colon + 1..]
      else if colon == |name| - 1 then ""
      else name
  }

  /** StripPrefix drops exactly the part up to and including the first ':'. */
  lemma StripPrefixDropsFirstPrefix(name: string)
    ensures var r := StripPrefix(name);
      IsSuffix(r, name) &&
      (':' !in name ==> r == name) &&
      (':' in name ==> |r| < |name| && name[|name| - |r| - 1] == ':' && ':' !in name[..|name| - |r| - 1])
  {
    if |name| > 0 {
      IndexOfCharIsFirst(name, ':', 0);
      var colon := IndexOfChar(name, ':', 0);
      if colon >= 0 {
        assert name[colon] == ':';
        assert forall k :: 0 <= k < colon ==> name[..colon][k] == name[k];
      }
    }
  }

  /** A stripped name is what is left at the end of the name. */
  lemma StripPrefixIsSuffix(name: string)
    ensures IsSuffix(StripPrefix(name), name)
  {
    StripPrefixDropsFirstPrefix(name);
  }

  /** The text in [from, min(to, |text|)), empty when that range is empty. */
  function ExtractIdentifier(text: string, from: nat, to: int): (r: string)
    ensures from <= to <= |text| ==> r == text[from..to]
    ensures to <= from ==> r == ""
  {
    var end := if to < |text| then to else |text|;
    if from >= end then "" else text[from..end]
  }
}
