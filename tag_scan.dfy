/**
 * The backward scanners of the cursor-context parser
 * (Parser/XmlContextParser.cs): the nearest unclosed '<', the quote-aware
 * search for a tag's '<', the tag name after '<', and the tag-stack search
 * for the nearest unclosed parent tag.
 *
 * Each scanner is a method that steps an index as the source does, and is
 * proved equal to a recursive specification function; the lemmas at the end
 * state what those functions mean.
 */
module TagScan {
  import opened Wrappers
  import opened XmlText

  /** No '<' and no '>' in text[a..b). */
  predicate NoAngleIn(text: string, a: nat, b: int)
    requires b <= |text|
  {
    forall k :: a <= k < b ==> text[k] != '<' && text[k] != '>'
  }

  // ---------------------------------------------------------------------------
  // Nearest unclosed '<' (Parser/XmlContextParser.cs:67-81)
  // ---------------------------------------------------------------------------

  /** Scanning backward from i down to lo: the index of a '<' met before any
      '>', or -1 when a '>' comes first or the window is exhausted. */
  function UnclosedTagOpenFrom(text: string, lo: nat, i: int): (r: int)
    requires i < |text|
    ensures r == -1 || (lo <= r <= i && text[r] == '<')
    decreases i + 1 - lo
  {
    if i < lo then -1
    else if text[i] == '<' then i
    else if text[i] == '>' then -1
    else UnclosedTagOpenFrom(text, lo, i - 1)
  }

  /** The '<' found is the nearest angle bracket; -1 means the window holds
      none, or a '>' comes nearer than any '<'. */
  lemma {:induction false} UnclosedTagOpenIsNearest(text: string, lo: nat, i: int)
    requires i < |text|
    ensures var r := UnclosedTagOpenFrom(text, lo, i);
      (r >= 0 ==> NoAngleIn(text, r + 1, i + 1)) &&
      (r == -1 ==>
        NoAngleIn(text, lo, i + 1) ||
        exists j :: lo <= j <= i && text[j] == '>' && NoAngleIn(text, j + 1, i + 1))
    decreases i + 1 - lo
  {
    if i >= lo && text[i] != '<' && text[i] != '>' {
      UnclosedTagOpenIsNearest(text, lo, i - 1);
      var r := UnclosedTagOpenFrom(text, lo, i - 1);
      if r == -1 && !NoAngleIn(text, lo, i) {
        var j :| lo <= j <= i - 1 && text[j] == '>' && NoAngleIn(text, j + 1, i);
        assert NoAngleIn(text, j + 1, i + 1);
      }
    }
  }

  method FindNearestUnclosedTagOpen(text: string, scanStart: nat, position: nat) returns (r: int)
    requires position <= |text|
    ensures r == UnclosedTagOpenFrom(text, scanStart, position - 1)
  {
    var i := position - 1;
    while i >= scanStart
      invariant i < position
      invariant UnclosedTagOpenFrom(text, scanStart, i) == UnclosedTagOpenFrom(text, scanStart, position - 1)
    {
      var ch := text[i];
      if ch == '<' {
        return i;
      }
      if ch == '>' {
        return -1;
      }
      i := i - 1;
    }
    // Exhausted scan window: treat the cursor as in content.
    return -1;
  }

  // ---------------------------------------------------------------------------
  // Quote-aware '<' search (Parser/XmlContextParser.cs:571-594)
  // ---------------------------------------------------------------------------

  /** Scanning backward from i down to lo for '<', jumping over every quoted
      span: a quote character makes the scan resume just before the previous
      occurrence of the same quote. -1 when the window is exhausted, which
      includes a quote left unmatched. */
  function TagOpenFrom(text: string, lo: nat, i: int): (r: int)
    requires i < |text|
    ensures r == -1 || (lo <= r <= i && text[r] == '<')
    decreases i + 2 - lo
  {
    if i < lo then -1
    else if IsQuote(text[i]) then
      var m := LastCharAtOrBefore(text, text[i], lo, i - 1);
      TagOpenFrom(text, lo, m - 1)
    else if text[i] == '<' then i
    else TagOpenFrom(text, lo, i - 1)
  }

  method FindTagOpenBackward(text: string, scanStart: nat, from: int) returns (r: int)
    requires from < |text|
    ensures r == TagOpenFrom(text, scanStart, from)
  {
    var i := from;
    while i >= scanStart
      invariant i <= from
      invariant TagOpenFrom(text, scanStart, i) == TagOpenFrom(text, scanStart, from)
      decreases i + 2 - scanStart
    {
      var ch := text[i];
      if ch == '"' || ch == '\'' {
        var quote := ch;
        ghost var q := i;
        i := i - 1;
        while i >= scanStart && text[i] != quote
          invariant scanStart - 1 <= i < q
          invariant LastCharAtOrBefore(text, quote, scanStart, i) == LastCharAtOrBefore(text, quote, scanStart, q - 1)
        {
          i := i - 1;
        }
        i := i - 1;
        continue;
      }
      if ch == '<' {
        return i;
      }
      i := i - 1;
    }
    return -1;
  }

  // ---------------------------------------------------------------------------
  // Tag name after '<' (Parser/XmlContextParser.cs:601-626)
  // ---------------------------------------------------------------------------

  /** The end of the tag-name token starting at `start`: the first terminator
      before `bound`, or `bound` (or `start` when start >= bound). */
  function TokenEnd(text: string, start: nat, bound: nat): (e: nat)
    requires bound <= |text|
    ensures start <= e && (e <= bound || e == start)
    ensures e < bound ==> IsTagNameTerminator(text[e])
    decreases bound - start
  {
    if start >= bound || IsTagNameTerminator(text[start]) then start
    else TokenEnd(text, start + 1, bound)
  }

  /** The token holds no terminator. */
  lemma {:induction false} TokenHasNoTerminator(text: string, start: nat, bound: nat)
    requires bound <= |text|
    ensures forall k :: start <= k < TokenEnd(text, start, bound) ==> !IsTagNameTerminator(text[k])
    decreases bound - start
  {
    if start < bound && !IsTagNameTerminator(text[start]) {
      TokenHasNoTerminator(text, start + 1, bound);
    }
  }

  /** Where the tag name begins after the '<' at `tagOpen`: one further on
      for a closing tag. */
  function NameStart(text: string, tagOpen: nat): nat {
    if tagOpen + 1 < |text| && text[tagOpen + 1] == '/' then tagOpen + 2 else tagOpen + 1
  }

  /** The tag name after the '<' at `tagOpen`, read up to the first
      terminator before `limit`, with a leading '/' skipped and anything from
      the first '.' on dropped. */
  function TagNameAfterOpen(text: string, tagOpen: nat, limit: nat): (r: string)
  {
    var start0 := tagOpen + 1;
    if start0 >= |text| then ""
    else
      var start := if text[start0] == '/' then start0 + 1 else start0;
      var bound := if |text| < limit then |text| else limit;
      var end := TokenEnd(text, start, bound);
      if end <= start then ""
      else
        var raw := text[start..end];
        var dot := IndexOfChar(raw, '.', 0);
        if dot >= 0 then raw[..dot] else raw
  }

  /** The token text[start..end) cut at its first '.' is the text run from
      start. */
  lemma DotCutIsTextRun(text: string, start: nat, end: nat, r: string)
    requires start <= end <= |text|
    requires var raw := text[start..end]; var dot := IndexOfChar(raw, '.', 0);
      r == if dot >= 0 then raw[..dot] else raw
    ensures start + |r| <= |text| && text[start..start + |r|] == r
  {
    var raw := text[start..end];
    assert |r| <= |raw| && r == raw[..|r|];
  }

  /** A non-empty tag name is the run of text starting right after '<'
      (after "</" for a closing tag). */
  lemma TagNameIsTextRun(text: string, tagOpen: nat, limit: nat)
    ensures var r := TagNameAfterOpen(text, tagOpen, limit);
      r != "" ==>
        NameStart(text, tagOpen) + |r| <= |text| &&
        text[NameStart(text, tagOpen)..NameStart(text, tagOpen) + |r|] == r
  {
    var r := TagNameAfterOpen(text, tagOpen, limit);
    var start0 := tagOpen + 1;
    if start0 < |text| {
      var start := if text[start0] == '/' then start0 + 1 else start0;
      var bound := if |text| < limit then |text| else limit;
      var end := TokenEnd(text, start, bound);
      if end > start {
        var raw := text[start..end];
        var dot := IndexOfChar(raw, '.', 0);
        assert r == if dot >= 0 then raw[..dot] else raw;
        assert NameStart(text, tagOpen) == start;
        DotCutIsTextRun(text, start, end, r);
      }
    }
  }

  /** A tag name holds no '.' and no terminator. */
  lemma TagNameHasNoTerminator(text: string, tagOpen: nat, limit: nat)
    ensures var r := TagNameAfterOpen(text, tagOpen, limit);
      '.' !in r && forall k :: 0 <= k < |r| ==> !IsTagNameTerminator(r[k])
  {
    var r := TagNameAfterOpen(text, tagOpen, limit);
    var start0 := tagOpen + 1;
    if start0 < |text| {
      var start := if text[start0] == '/' then start0 + 1 else start0;
      var bound := if |text| < limit then |text| else limit;
      var end := TokenEnd(text, start, bound);
      if end > start {
        var raw := text[start..end];
        var dot := IndexOfChar(raw, '.', 0);
        assert r == if dot >= 0 then raw[..dot] else raw;
        TokenHasNoTerminator(text, start, bound);
        IndexOfCharIsFirst(raw, '.', 0);
        assert forall k :: 0 <= k < |r| ==> r[k] == text[start + k];
      }
    }
  }

  /** The loop that reads a tag-name token. */
  method ScanTokenEnd(text: string, start: nat, bound: nat) returns (end: nat)
    requires bound <= |text|
    ensures end == TokenEnd(text, start, bound)
  {
    end := start;
    while end < bound && !IsTagNameTerminator(text[end])
      invariant start <= end && (end <= bound || end == start)
      invariant TokenEnd(text, end, bound) == TokenEnd(text, start, bound)
      decreases bound - end
    {
      end := end + 1;
    }
  }

  method ExtractTagNameAfterOpen(text: string, tagOpenPos: nat, limit: nat) returns (r: string)
    ensures r == TagNameAfterOpen(text, tagOpenPos, limit)
  {
    var start := tagOpenPos + 1;
    if start >= |text| {
      return "";
    }
    if text[start] == '/' {
      start := start + 1;
    }
    var bound := if |text| < limit then |text| else limit;
    var end := ScanTokenEnd(text, start, bound);
    if end <= start {
      return "";
    }
    var raw := text[start..end];
    var dot := IndexOfChar(raw, '.', 0);
    if dot >= 0 {
      raw := raw[..dot];
    }
    return raw;
  }

  // ---------------------------------------------------------------------------
  // Nearest unclosed parent tag (Parser/XmlContextParser.cs:378-463)
  // ---------------------------------------------------------------------------

  /** Where the backward scan resumes after skipping a special block whose
      opening marker was searched for and found at `start` (or not, -1). */
  function ResumeBefore(start: int, lo: nat): int {
    if start >= 0 then start - 1 else lo - 1
  }

  /** What the parent-tag scan does at one '>' (at closeAngle): stop with a
      result, or resume at a lower index with a new stack. */
  datatype ScanStep = Done(result: Option<string>) | Next(resume: int, stack: seq<string>)

  /** One step of the tag-stack scan at the '>' found at `closeAngle`:
      a comment, CDATA or PI end skips back before its opening marker; an
      ordinary tag close is paired with its '<'; a closing tag pushes its
      prefix-stripped name; a self-closing tag changes nothing; an opening
      tag pops a matching top of the stack, or else is the answer. */
  function StepAtClose(text: string, lo: nat, closeAngle: nat, stack: seq<string>): (r: ScanStep)
    requires lo <= closeAngle < |text|
    ensures r.Next? ==> r.resume < closeAngle
  {
    if closeAngle >= 2 && text[closeAngle - 1] == '-' && text[closeAngle - 2] == '-' then
      Next(ResumeBefore(FindBackward(text, "<!--", closeAngle - 3, lo), lo), stack)
    else if closeAngle >= 2 && text[closeAngle - 1] == ']' && text[closeAngle - 2] == ']' then
      Next(ResumeBefore(FindBackward(text, "<![CDATA[", closeAngle - 3, lo), lo), stack)
    else if closeAngle >= 1 && text[closeAngle - 1] == '?' then
      Next(ResumeBefore(FindBackward(text, "<?", closeAngle - 2, lo), lo), stack)
    else StepAtTag(text, closeAngle, TagOpenFrom(text, lo, closeAngle - 1), stack)
  }

  /** The step at an ordinary tag close whose '<' was searched for and found
      at openAngle (or not, -1). */
  function StepAtTag(text: string, closeAngle: nat, openAngle: int, stack: seq<string>): (r: ScanStep)
    requires closeAngle < |text| && openAngle < closeAngle
    ensures r.Next? ==> r.resume < closeAngle
  {
    if openAngle < 0 then Done(None)
    else
      var selfClosing := text[closeAngle - 1] == '/';
      var afterLt := openAngle + 1;
      if afterLt < |text| && text[afterLt] == '/' then
        var name := TagNameAfterOpen(text, openAngle, closeAngle);
        Next(openAngle - 1, if name != "" then stack + [StripPrefix(name)] else stack)
      else if !selfClosing then
        var stripped := StripPrefix(TagNameAfterOpen(text, openAngle, closeAngle));
        if stripped == "" then Next(openAngle - 1, stack)
        else if |stack| > 0 && stack[|stack| - 1] == stripped then Next(openAngle - 1, stack[..|stack| - 1])
        else Done(Some(stripped))
      else Next(openAngle - 1, stack)
  }

  /** The tag-stack scan from index i down to lo with the given stack of
      closing-tag names (top last): find the nearest '>' and take one step
      there.  An unmatched quote or an exhausted window gives None. */
  function ParentTagFrom(text: string, lo: nat, i: int, stack: seq<string>): (r: Option<string>)
    requires i < |text|
    decreases i + 1 - lo
  {
    if i < lo then None
    else
      var closeAngle := LastCharAtOrBefore(text, '>', lo, i);
      if closeAngle < lo then None
      else
        match StepAtClose(text, lo, closeAngle, stack)
        case Done(result) => result
        case Next(resume, stack') => ParentTagFrom(text, lo, resume, stack')
  }

  /** One step of the scan at the '>' at closeAngle, as the source's loop
      body takes it. */
  method ScanAtClose(text: string, scanStart: nat, closeAngle: nat, stack: seq<string>) returns (r: ScanStep)
    requires scanStart <= closeAngle < |text|
    ensures r == StepAtClose(text, scanStart, closeAngle, stack)
  {
    // Skip comment end "-->"
    if closeAngle >= 2 && text[closeAngle - 1] == '-' && text[closeAngle - 2] == '-' {
      var cStart := FindBackward(text, "<!--", closeAngle - 3, scanStart);
      return Next(if cStart >= 0 then cStart - 1 else scanStart - 1, stack);
    }
    // Skip CDATA end "]]>"
    if closeAngle >= 2 && text[closeAngle - 1] == ']' && text[closeAngle - 2] == ']' {
      var cStart := FindBackward(text, "<![CDATA[", closeAngle - 3, scanStart);
      return Next(if cStart >= 0 then cStart - 1 else scanStart - 1, stack);
    }
    // Skip PI end "?>"
    if closeAngle >= 1 && text[closeAngle - 1] == '?' {
      var cStart := FindBackward(text, "<?", closeAngle - 2, scanStart);
      return Next(if cStart >= 0 then cStart - 1 else scanStart - 1, stack);
    }

    // Find the corresponding '<'.
    var openAngle := FindTagOpenBackward(text, scanStart, closeAngle - 1);
    r := ScanAtTag(text, closeAngle, openAngle, stack);
  }

  method ScanAtTag(text: string, closeAngle: nat, openAngle: int, stack: seq<string>) returns (r: ScanStep)
    requires closeAngle < |text| && openAngle < closeAngle
    ensures r == StepAtTag(text, closeAngle, openAngle, stack)
  {
    if openAngle < 0 {
      return Done(None);
    }
    var selfClosing := text[closeAngle - 1] == '/';
    var afterLt := openAngle + 1;
    var isClosingTag := afterLt < |text| && text[afterLt] == '/';

    var stack' := stack;
    if isClosingTag {
      var name := ExtractTagNameAfterOpen(text, openAngle, closeAngle);
      if name != "" {
        stack' := stack + [StripPrefix(name)];
      }
    } else if !selfClosing {
      var name := ExtractTagNameAfterOpen(text, openAngle, closeAngle);
      var stripped := StripPrefix(name);
      if stripped != "" {
        if |stack| > 0 && stack[|stack| - 1] == stripped {
          stack' := stack[..|stack| - 1];
        } else {
          return Done(Some(stripped));
        }
      }
    }
    // Self-closing tags (<Tag .../>) are silently skipped.
    return Next(openAngle - 1, stack');
  }

  /** The nearest '>' at or before i, scanning backward down to scanStart. */
  method FindCloseAngleBackward(text: string, scanStart: nat, from: int) returns (i: int)
    requires scanStart - 1 <= from < |text|
    ensures i == LastCharAtOrBefore(text, '>', scanStart, from)
  {
    i := from;
    while i >= scanStart && text[i] != '>'
      invariant scanStart - 1 <= i <= from
      invariant LastCharAtOrBefore(text, '>', scanStart, i) == LastCharAtOrBefore(text, '>', scanStart, from)
    {
      i := i - 1;
    }
  }

  method FindParentTag(text: string, scanStart: nat, position: nat) returns (r: Option<string>)
    requires scanStart <= position <= |text|
    ensures r == ParentTagFrom(text, scanStart, position - 1, [])
  {
    var stack: seq<string> := [];
    var i := position - 1;

    while i >= scanStart
      invariant scanStart - 1 <= i < |text|
      invariant ParentTagFrom(text, scanStart, i, stack) == ParentTagFrom(text, scanStart, position - 1, [])
      decreases i + 1 - scanStart
    {
      ghost var top := i;
      var closeAngle := FindCloseAngleBackward(text, scanStart, i);
      if closeAngle < scanStart {
        break;
      }
      var step := ScanAtClose(text, scanStart, closeAngle, stack);
      if step.Done? {
        StopGivesResult(text, scanStart, top, closeAngle, stack, step.result);
        return step.result;
      }
      ResumeKeepsResult(text, scanStart, top, closeAngle, stack, step.resume, step.stack);
      i, stack := step.resume, step.stack;
    }
    return None;
  }

  // ---------------------------------------------------------------------------
  // What the scanners mean
  // ---------------------------------------------------------------------------

  /** Over a stretch without quote characters, the quote-aware search is the
      plain backward search for '<'. */
  lemma {:induction false} TagOpenWithoutQuotes(text: string, lo: nat, i: int)
    requires lo - 1 <= i < |text|
    requires forall k :: lo <= k <= i ==> !IsQuote(text[k])
    ensures TagOpenFrom(text, lo, i) ==
      (var m := LastCharAtOrBefore(text, '<', lo, i); if m < lo then -1 else m)
    decreases i + 1 - lo
  {
    if i >= lo && text[i] != '<' {
      TagOpenWithoutQuotes(text, lo, i - 1);
    }
  }

  /** A quote with no partner before it inside the window ends the search
      with -1, so the parent-tag scan gives up on it. */
  lemma UnmatchedQuoteStopsTagOpen(text: string, lo: nat, i: int)
    requires lo <= i < |text| && IsQuote(text[i])
    requires forall k :: lo <= k < i ==> text[k] != text[i]
    ensures TagOpenFrom(text, lo, i) == -1
  {
    assert LastCharAtOrBefore(text, text[i], lo, i - 1) == lo - 1;
  }

  /** text[o..c] is an opening tag: a '<' not followed by '/' and a '>' not
      preceded by '/'. */
  predicate IsOpeningTag(text: string, o: int, c: int) {
    0 <= o < c < |text| && text[o] == '<' && text[c] == '>' && text[o + 1] != '/' && text[c - 1] != '/'
  }

  /** A step at a '>' that stops is the step at an ordinary tag. */
  lemma StopIsAtOrdinaryTag(text: string, lo: nat, closeAngle: nat, stack: seq<string>)
    requires lo <= closeAngle < |text|
    ensures StepAtClose(text, lo, closeAngle, stack).Done? ==>
      StepAtClose(text, lo, closeAngle, stack) == StepAtTag(text, closeAngle, TagOpenFrom(text, lo, closeAngle - 1), stack)
  {
  }

  /** A step at a tag that stops with a name stops at an opening tag. */
  lemma StopWithNameIsOpening(text: string, closeAngle: nat, o: int, stack: seq<string>)
    requires closeAngle < |text| && o < closeAngle
    requires StepAtTag(text, closeAngle, o, stack).Done? && StepAtTag(text, closeAngle, o, stack).result.Some?
    ensures o >= 0 && text[o + 1] != '/' && text[closeAngle - 1] != '/'
  {
  }

  /** A step that stops with a name stopped at a real opening tag: the '<'
      paired with the '>' at closeAngle starts neither a closing tag nor a
      self-closing one. */
  lemma StepResultShape(text: string, lo: nat, closeAngle: nat, stack: seq<string>)
    requires lo <= closeAngle < |text| && text[closeAngle] == '>'
    requires StepAtClose(text, lo, closeAngle, stack).Done?
    requires StepAtClose(text, lo, closeAngle, stack).result.Some?
    ensures lo <= TagOpenFrom(text, lo, closeAngle - 1)
    ensures IsOpeningTag(text, TagOpenFrom(text, lo, closeAngle - 1), closeAngle)
  {
    StopIsAtOrdinaryTag(text, lo, closeAngle, stack);
    StopWithNameIsOpening(text, closeAngle, TagOpenFrom(text, lo, closeAngle - 1), stack);
  }

  /** ... and the name it stops with is that tag's prefix-stripped name. */
  lemma StepResultName(text: string, lo: nat, closeAngle: nat, stack: seq<string>)
    requires lo <= closeAngle < |text|
    requires StepAtClose(text, lo, closeAngle, stack).Done?
    requires StepAtClose(text, lo, closeAngle, stack).result.Some?
    ensures var o := TagOpenFrom(text, lo, closeAngle - 1);
      StepAtClose(text, lo, closeAngle, stack).result.value == StripPrefix(TagNameAfterOpen(text, o, closeAngle)) &&
      StepAtClose(text, lo, closeAngle, stack).result.value != ""
  {
    var o := TagOpenFrom(text, lo, closeAngle - 1);
    var name := StripPrefix(TagNameAfterOpen(text, o, closeAngle));
    assert StepAtClose(text, lo, closeAngle, stack) == Done(Some(name));
  }

  /** A scan that finds a name finds a '>' first. */
  lemma ParentTagFindsClose(text: string, lo: nat, i: int, stack: seq<string>)
    requires i < |text|
    requires ParentTagFrom(text, lo, i, stack).Some?
    ensures lo <= LastCharAtOrBefore(text, '>', lo, i) <= i
  {
  }

  /** Soundness of the parent-tag scan: a result is the prefix-stripped name
      of a real opening tag inside the window, neither a closing tag nor a
      self-closing one. */
  lemma {:induction false} ParentTagIsOpeningTag(text: string, lo: nat, i: int, stack: seq<string>)
    returns (o: nat, c: nat)
    requires i < |text|
    requires ParentTagFrom(text, lo, i, stack).Some?
    ensures lo <= o && c <= i
    ensures IsOpeningTag(text, o, c)
    ensures ParentTagFrom(text, lo, i, stack).value == StripPrefix(TagNameAfterOpen(text, o, c))
    ensures ParentTagFrom(text, lo, i, stack).value != ""
    decreases i + 1 - lo
  {
    ParentTagFindsClose(text, lo, i, stack);
    var closeAngle := LastCharAtOrBefore(text, '>', lo, i);
    var step := StepAtClose(text, lo, closeAngle, stack);
    if step.Done? {
      StopGivesResult(text, lo, i, closeAngle, stack, step.result);
      StepResultShape(text, lo, closeAngle, stack);
      StepResultName(text, lo, closeAngle, stack);
      o, c := TagOpenFrom(text, lo, closeAngle - 1), closeAngle;
    } else {
      ResumeKeepsResult(text, lo, i, closeAngle, stack, step.resume, step.stack);
      o, c := ParentTagIsOpeningTag(text, lo, step.resume, step.stack);
    }
  }

  // ---------------------------------------------------------------------------
  // Which parent the scan finds
  // ---------------------------------------------------------------------------

  /** The '>' at c ends a comment, a CDATA section or a processing
      instruction as the scan recognises them: it follows "--", "]]" or "?". */
  predicate EndsSpecialBlock(text: string, c: nat)
    requires c < |text|
  {
    (c >= 2 && text[c - 1] == '-' && text[c - 2] == '-') ||
    (c >= 2 && text[c - 1] == ']' && text[c - 2] == ']') ||
    (c >= 1 && text[c - 1] == '?')
  }

  /** Scanning down from i, the nearest '>' is at c and closes an ordinary
      tag, whose '<' the quote-aware search finds at o. */
  predicate TagBefore(text: string, lo: nat, i: int, o: nat, c: nat) {
    lo <= o < c <= i < |text| &&
    c == LastCharAtOrBefore(text, '>', lo, i) && !EndsSpecialBlock(text, c) &&
    o == TagOpenFrom(text, lo, c - 1)
  }

  /** At the '>' of an ordinary tag, the step is the one taken at that
      tag's '<'. */
  lemma OrdinaryTagStep(text: string, lo: nat, i: int, o: nat, c: nat, stack: seq<string>)
    requires TagBefore(text, lo, i, o, c)
    ensures StepAtClose(text, lo, c, stack) == StepAtTag(text, c, o, stack)
  {
  }

  /** The step at a closing tag pushes its name. */
  lemma ClosingTagStep(text: string, o: nat, c: nat, stack: seq<string>)
    requires o < c < |text| && text[o + 1] == '/'
    ensures var name := TagNameAfterOpen(text, o, c);
      StepAtTag(text, c, o, stack) == Next(o - 1, if name != "" then stack + [StripPrefix(name)] else stack)
  {
  }

  /** The step at a self-closing tag leaves the stack alone. */
  lemma SelfClosingTagStep(text: string, o: nat, c: nat, stack: seq<string>)
    requires o < c < |text| && text[o + 1] != '/' && text[c - 1] == '/'
    ensures StepAtTag(text, c, o, stack) == Next(o - 1, stack)
  {
  }

  /** The step at an opening tag with a non-empty name pops a matching top,
      or stops with the name. */
  lemma OpeningTagStep(text: string, o: nat, c: nat, stack: seq<string>)
    requires IsOpeningTag(text, o, c) && StripPrefix(TagNameAfterOpen(text, o, c)) != ""
    ensures var s := StripPrefix(TagNameAfterOpen(text, o, c));
      StepAtTag(text, c, o, stack) ==
        if |stack| > 0 && stack[|stack| - 1] == s then Next(o - 1, stack[..|stack| - 1]) else Done(Some(s))
  {
  }

  /** At the nearest '>', a closing tag pushes its name. */
  lemma ClosingTagStepAtClose(text: string, lo: nat, i: int, o: nat, c: nat, stack: seq<string>)
    requires TagBefore(text, lo, i, o, c) && text[o + 1] == '/'
    ensures var name := TagNameAfterOpen(text, o, c);
      StepAtClose(text, lo, c, stack) == Next(o - 1, if name != "" then stack + [StripPrefix(name)] else stack)
  {
    OrdinaryTagStep(text, lo, i, o, c, stack);
    ClosingTagStep(text, o, c, stack);
  }

  /** At the nearest '>', a self-closing tag leaves the stack alone. */
  lemma SelfClosingTagStepAtClose(text: string, lo: nat, i: int, o: nat, c: nat, stack: seq<string>)
    requires TagBefore(text, lo, i, o, c) && text[o + 1] != '/' && text[c - 1] == '/'
    ensures StepAtClose(text, lo, c, stack) == Next(o - 1, stack)
  {
    OrdinaryTagStep(text, lo, i, o, c, stack);
    SelfClosingTagStep(text, o, c, stack);
  }

  /** At the nearest '>', an opening tag whose name is on top of the stack
      closes that child: the name is popped and the scan goes on before its
      '<'. */
  lemma MatchingOpeningTagStepAtClose(text: string, lo: nat, i: int, o: nat, c: nat, rest: seq<string>, name: string)
    requires TagBefore(text, lo, i, o, c) && IsOpeningTag(text, o, c)
    requires StripPrefix(TagNameAfterOpen(text, o, c)) == name != ""
    ensures StepAtClose(text, lo, c, rest + [name]) == Next(o - 1, rest)
  {
    OrdinaryTagStep(text, lo, i, o, c, rest + [name]);
    OpeningTagStep(text, o, c, rest + [name]);
    assert (rest + [name])[..|rest|] == rest;
  }

  /** At the nearest '>', an opening tag that does not match the top of the
      stack stops the scan with its name. */
  lemma UnmatchedOpeningTagStepAtClose(text: string, lo: nat, i: int, o: nat, c: nat, stack: seq<string>)
    requires TagBefore(text, lo, i, o, c) && IsOpeningTag(text, o, c)
    requires StripPrefix(TagNameAfterOpen(text, o, c)) != ""
    requires |stack| == 0 || stack[|stack| - 1] != StripPrefix(TagNameAfterOpen(text, o, c))
    ensures StepAtClose(text, lo, c, stack) == Done(Some(StripPrefix(TagNameAfterOpen(text, o, c))))
  {
    OrdinaryTagStep(text, lo, i, o, c, stack);
    OpeningTagStep(text, o, c, stack);
  }

  /** A step at the nearest '>' that goes on hands the answer to the scan
      from where it resumes. */
  lemma ResumeKeepsResult(text: string, lo: nat, i: int, c: nat, stack: seq<string>, resume: int, stack': seq<string>)
    requires lo <= c <= i < |text| && c == LastCharAtOrBefore(text, '>', lo, i)
    requires StepAtClose(text, lo, c, stack) == Next(resume, stack')
    ensures ParentTagFrom(text, lo, i, stack) == ParentTagFrom(text, lo, resume, stack')
  {
  }

  /** A step at the nearest '>' that stops gives the answer. */
  lemma StopGivesResult(text: string, lo: nat, i: int, c: nat, stack: seq<string>, result: Option<string>)
    requires lo <= c <= i < |text| && c == LastCharAtOrBefore(text, '>', lo, i)
    requires StepAtClose(text, lo, c, stack) == Done(result)
    ensures ParentTagFrom(text, lo, i, stack) == result
  {
  }

  /** At an ordinary '>' whose '<' the quote-aware search does not find,
      the step gives up with no parent. */
  lemma NoTagOpenStep(text: string, lo: nat, c: nat, stack: seq<string>)
    requires lo <= c < |text| && !EndsSpecialBlock(text, c) && TagOpenFrom(text, lo, c - 1) == -1
    ensures StepAtClose(text, lo, c, stack) == Done(None)
  {
  }

  /** ... and so does the whole scan, whatever its stack holds. */
  lemma NoTagOpenGivesNone(text: string, lo: nat, i: int, c: nat, stack: seq<string>)
    requires lo <= c <= i < |text| && c == LastCharAtOrBefore(text, '>', lo, i)
    requires !EndsSpecialBlock(text, c) && TagOpenFrom(text, lo, c - 1) == -1
    ensures ParentTagFrom(text, lo, i, stack) == None
  {
    NoTagOpenStep(text, lo, c, stack);
    StopGivesResult(text, lo, i, c, stack, None);
  }

  /** Over characters that are neither quotes nor '<', the quote-aware
      search goes on unchanged. */
  lemma {:induction false} TagOpenSkipsPlain(text: string, lo: nat, q: nat, j: int)
    requires lo <= q <= j < |text|
    requires forall k :: q < k <= j ==> !IsQuote(text[k]) && text[k] != '<'
    ensures TagOpenFrom(text, lo, j) == TagOpenFrom(text, lo, q)
    decreases j - q
  {
    if j > q {
      TagOpenSkipsPlain(text, lo, q, j - 1);
    }
  }

  /** A quote between the nearest ordinary '>' and its '<' that has no
      partner before it in the window makes the scan give up: no parent,
      whatever the stack holds. */
  lemma UnmatchedQuoteGivesNone(text: string, lo: nat, i: int, c: nat, q: nat, stack: seq<string>)
    requires lo <= c <= i < |text| && c == LastCharAtOrBefore(text, '>', lo, i) && !EndsSpecialBlock(text, c)
    requires lo <= q < c && IsQuote(text[q])
    requires forall k :: q < k < c ==> !IsQuote(text[k]) && text[k] != '<'
    requires forall k :: lo <= k < q ==> text[k] != text[q]
    ensures ParentTagFrom(text, lo, i, stack) == None
  {
    TagOpenSkipsPlain(text, lo, q, c - 1);
    UnmatchedQuoteStopsTagOpen(text, lo, q);
    NoTagOpenGivesNone(text, lo, i, c, stack);
  }

  /** A '>' after "--" ends a comment: the scan skips back before the
      nearest "<!--" in the window (out of the window when there is none)
      and keeps its stack. */
  lemma CommentIsSkipped(text: string, lo: nat, i: int, c: nat, stack: seq<string>)
    requires lo <= c <= i < |text| && c == LastCharAtOrBefore(text, '>', lo, i)
    requires c >= 2 && text[c - 1] == '-' && text[c - 2] == '-'
    ensures ParentTagFrom(text, lo, i, stack) ==
      ParentTagFrom(text, lo, ResumeBefore(FindBackward(text, "<!--", c - 3, lo), lo), stack)
  {
    ResumeKeepsResult(text, lo, i, c, stack, ResumeBefore(FindBackward(text, "<!--", c - 3, lo), lo), stack);
  }

  /** A '>' after "]]" ends a CDATA section, skipped back to its
      "<![CDATA[". */
  lemma CDataIsSkipped(text: string, lo: nat, i: int, c: nat, stack: seq<string>)
    requires lo <= c <= i < |text| && c == LastCharAtOrBefore(text, '>', lo, i)
    requires c >= 2 && text[c - 1] == ']' && text[c - 2] == ']'
    ensures ParentTagFrom(text, lo, i, stack) ==
      ParentTagFrom(text, lo, ResumeBefore(FindBackward(text, "<![CDATA[", c - 3, lo), lo), stack)
  {
    ResumeKeepsResult(text, lo, i, c, stack, ResumeBefore(FindBackward(text, "<![CDATA[", c - 3, lo), lo), stack);
  }

  /** A '>' after '?' ends a processing instruction, skipped back to its
      "<?". */
  lemma PIIsSkipped(text: string, lo: nat, i: int, c: nat, stack: seq<string>)
    requires lo <= c <= i < |text| && c == LastCharAtOrBefore(text, '>', lo, i)
    requires c >= 1 && text[c - 1] == '?'
    ensures ParentTagFrom(text, lo, i, stack) ==
      ParentTagFrom(text, lo, ResumeBefore(FindBackward(text, "<?", c - 2, lo), lo), stack)
  {
    ResumeKeepsResult(text, lo, i, c, stack, ResumeBefore(FindBackward(text, "<?", c - 2, lo), lo), stack);
  }

  /** A closing tag pushes its prefix-stripped name and the scan goes on
      before its '<'. */
  lemma ClosingTagPushes(text: string, lo: nat, i: int, o: nat, c: nat, stack: seq<string>)
    requires TagBefore(text, lo, i, o, c) && text[o + 1] == '/'
    ensures var name := TagNameAfterOpen(text, o, c);
      ParentTagFrom(text, lo, i, stack) ==
        ParentTagFrom(text, lo, o - 1, if name != "" then stack + [StripPrefix(name)] else stack)
  {
    var name := TagNameAfterOpen(text, o, c);
    ClosingTagStepAtClose(text, lo, i, o, c, stack);
    ResumeKeepsResult(text, lo, i, c, stack, o - 1, if name != "" then stack + [StripPrefix(name)] else stack);
  }

  /** A self-closing tag changes nothing and the scan goes on before its
      '<'. */
  lemma SelfClosingTagIsSkipped(text: string, lo: nat, i: int, o: nat, c: nat, stack: seq<string>)
    requires TagBefore(text, lo, i, o, c) && text[o + 1] != '/' && text[c - 1] == '/'
    ensures ParentTagFrom(text, lo, i, stack) == ParentTagFrom(text, lo, o - 1, stack)
  {
    SelfClosingTagStepAtClose(text, lo, i, o, c, stack);
    ResumeKeepsResult(text, lo, i, c, stack, o - 1, stack);
  }

  /** Completeness of the scan at an opening tag: one that no closing tag
      met on the way matches is the parent, named by its prefix-stripped
      name. */
  lemma UnmatchedOpeningTagIsParent(text: string, lo: nat, i: int, o: nat, c: nat, stack: seq<string>)
    requires TagBefore(text, lo, i, o, c) && IsOpeningTag(text, o, c)
    requires StripPrefix(TagNameAfterOpen(text, o, c)) != ""
    requires |stack| == 0 || stack[|stack| - 1] != StripPrefix(TagNameAfterOpen(text, o, c))
    ensures ParentTagFrom(text, lo, i, stack) == Some(StripPrefix(TagNameAfterOpen(text, o, c)))
  {
    UnmatchedOpeningTagStepAtClose(text, lo, i, o, c, stack);
    StopGivesResult(text, lo, i, c, stack, Some(StripPrefix(TagNameAfterOpen(text, o, c))));
  }

  /** A name of letters, digits and '_'. */
  predicate PlainName(s: string) {
    s != "" && forall k :: 0 <= k < |s| ==> IsLetterOrDigit(s[k]) || s[k] == '_'
  }

  /** With no quote and no '<' after the '<' at o, the quote-aware search
      from i finds o. */
  lemma {:induction false} TagOpenAt(text: string, lo: nat, o: nat, i: int)
    requires lo <= o <= i < |text| && text[o] == '<'
    requires forall k :: o < k <= i ==> text[k] != '<' && !IsQuote(text[k])
    ensures TagOpenFrom(text, lo, i) == o
    decreases i - o
  {
    if o < i {
      TagOpenAt(text, lo, o, i - 1);
    }
  }

  /** A token with no terminator up to the bound ends at the bound. */
  lemma {:induction false} TokenEndAtBound(text: string, start: nat, bound: nat)
    requires start <= bound <= |text|
    requires forall k :: start <= k < bound ==> !IsTagNameTerminator(text[k])
    ensures TokenEnd(text, start, bound) == bound
    decreases bound - start
  {
    if start < bound {
      TokenEndAtBound(text, start + 1, bound);
    }
  }

  /** The characters of a plain name, laid out in text from s to c. */
  lemma PlainNameChars(text: string, s: nat, c: nat, name: string)
    requires s <= c <= |text| && text[s..c] == name && PlainName(name)
    ensures forall k :: s <= k < c ==> IsLetterOrDigit(text[k]) || text[k] == '_'
  {
    forall k | s <= k < c
      ensures IsLetterOrDigit(text[k]) || text[k] == '_'
    {
      assert text[k] == name[k - s];
    }
  }

  /** The name the scan reads in a tag `<name>` or `</name>` with a plain
      name is that name, and the tag is not self-closing. */
  lemma PlainTagName(text: string, o: nat, c: nat, name: string)
    requires o + 1 < c < |text|
    requires NameStart(text, o) < c && text[NameStart(text, o)..c] == name && PlainName(name)
    ensures StripPrefix(TagNameAfterOpen(text, o, c)) == name
    ensures text[c - 1] != '/'
  {
    PlainNameChars(text, NameStart(text, o), c, name);
    TokenEndAtBound(text, NameStart(text, o), c);
    assert IndexOfChar(name, '.', 0) < 0;
    assert IndexOfChar(name, ':', 0) < 0;
  }

  /** A tag `<name>` or `</name>` with a plain name is an ordinary tag the
      scan meets first from its '>'. */
  lemma PlainTagBefore(text: string, lo: nat, o: nat, c: nat, name: string)
    requires lo <= o && o + 1 < c < |text| && text[o] == '<' && text[c] == '>'
    requires NameStart(text, o) < c && text[NameStart(text, o)..c] == name && PlainName(name)
    ensures TagBefore(text, lo, c, o, c)
  {
    PlainNameChars(text, NameStart(text, o), c, name);
    TagOpenAt(text, lo, o, c - 1);
  }

  /** Both of the above. */
  lemma PlainTagAt(text: string, lo: nat, o: nat, c: nat, name: string)
    requires lo <= o && o + 1 < c < |text| && text[o] == '<' && text[c] == '>'
    requires NameStart(text, o) < c && text[NameStart(text, o)..c] == name && PlainName(name)
    ensures TagBefore(text, lo, c, o, c)
    ensures StripPrefix(TagNameAfterOpen(text, o, c)) == name
    ensures text[c - 1] != '/'
  {
    PlainTagName(text, o, c, name);
    PlainTagBefore(text, lo, o, c, name);
  }

  /** `</name>` ending at c pushes name on an empty stack. */
  lemma PlainClosingTagPushes(text: string, lo: nat, o: nat, c: nat, name: string)
    requires lo <= o && o + 2 < c < |text| && text[o] == '<' && text[o + 1] == '/' && text[c] == '>'
    requires text[o + 2..c] == name && PlainName(name)
    ensures ParentTagFrom(text, lo, c, []) == ParentTagFrom(text, lo, o - 1, [name])
  {
    PlainTagAt(text, lo, o, c, name);
    ClosingTagPushes(text, lo, c, o, c, []);
    assert [] + [name] == [name];
  }

  /** `<name>` ending at c pops name off the stack [name]. */
  lemma PlainOpeningTagPops(text: string, lo: nat, o: nat, c: nat, name: string)
    requires lo <= o && o + 1 < c < |text| && text[o] == '<' && text[c] == '>'
    requires text[o + 1..c] == name && PlainName(name)
    ensures ParentTagFrom(text, lo, c, [name]) == ParentTagFrom(text, lo, o - 1, [])
  {
    assert text[o + 1] == name[0];
    PlainTagAt(text, lo, o, c, name);
    assert IsOpeningTag(text, o, c);
    MatchingOpeningTagStepAtClose(text, lo, c, o, c, [], name);
    assert [] + [name] == [name];
    ResumeKeepsResult(text, lo, c, c, [name], o - 1, []);
  }

  /** `<name>` ending at c with an empty stack is the parent. */
  lemma PlainOpeningTagIsParent(text: string, lo: nat, o: nat, c: nat, name: string)
    requires lo <= o && o + 1 < c < |text| && text[o] == '<' && text[c] == '>'
    requires text[o + 1..c] == name && PlainName(name)
    ensures ParentTagFrom(text, lo, c, []) == Some(name)
  {
    assert text[o + 1] == name[0];
    PlainTagAt(text, lo, o, c, name);
    assert IsOpeningTag(text, o, c);
    UnmatchedOpeningTagIsParent(text, lo, c, o, c, []);
  }

  /** Where the tags of pre + `<a><b></b>` lie. */
  lemma ClosedChildLayout(pre: string, a: string, b: string, text: string)
    requires a != "" && b != ""
    requires text == pre + "<" + a + ">" + "<" + b + ">" + "</" + b + ">"
    ensures var o2 := |pre| + |a| + 2; var o3 := o2 + |b| + 2;
      |text| == o3 + |b| + 3 &&
      text[|pre|] == '<' && text[o2 - 1] == '>' && text[|pre| + 1..o2 - 1] == a &&
      text[o2] == '<' && text[o3 - 1] == '>' && text[o2 + 1..o3 - 1] == b &&
      text[o3] == '<' && text[o3 + 1] == '/' && text[|text| - 1] == '>' && text[o3 + 2..|text| - 1] == b
  {
  }

  /** Scanning down from the '>' of `<b>` laid out at o2 with b on the
      stack: b is popped and `<a>` at o1 is the parent. */
  lemma OpenedChildSteps(text: string, lo: nat, o1: nat, o2: nat, c2: nat, a: string, b: string)
    requires PlainName(a) && PlainName(b) && lo <= o1
    requires o2 == o1 + |a| + 2 && c2 == o2 + |b| + 1 && c2 < |text|
    requires text[o1] == '<' && text[o2 - 1] == '>' && text[o1 + 1..o2 - 1] == a
    requires text[o2] == '<' && text[c2] == '>' && text[o2 + 1..c2] == b
    ensures ParentTagFrom(text, lo, c2, [b]) == Some(a)
  {
    PlainOpeningTagIsParent(text, lo, o1, o2 - 1, a);
    PlainOpeningTagPops(text, lo, o2, c2, b);
  }

  /** A closing tag `</b>` at o3 that ends the text pushes b; when the scan
      from just below it with b on the stack finds a, so does the scan from
      the end. */
  lemma ClosedChildSteps(text: string, lo: nat, o3: nat, a: string, b: string)
    requires PlainName(b) && lo <= o3 && |text| == o3 + |b| + 3
    requires text[o3] == '<' && text[o3 + 1] == '/' && text[|text| - 1] == '>' && text[o3 + 2..|text| - 1] == b
    requires ParentTagFrom(text, lo, o3 - 1, [b]) == Some(a)
    ensures ParentTagFrom(text, lo, |text| - 1, []) == Some(a)
  {
    PlainClosingTagPushes(text, lo, o3, |text| - 1, b);
  }

  /** `<a><b></b>` laid out at o1, o2 and o3 at the end of the text: the
      scan from its last '>' finds a. */
  lemma ClosedChildAt(text: string, lo: nat, o1: nat, o2: nat, o3: nat, a: string, b: string)
    requires PlainName(a) && PlainName(b) && lo <= o1
    requires o2 == o1 + |a| + 2 && o3 == o2 + |b| + 2 && |text| == o3 + |b| + 3
    requires text[o1] == '<' && text[o2 - 1] == '>' && text[o1 + 1..o2 - 1] == a
    requires text[o2] == '<' && text[o3 - 1] == '>' && text[o2 + 1..o3 - 1] == b
    requires text[o3] == '<' && text[o3 + 1] == '/' && text[|text| - 1] == '>' && text[o3 + 2..|text| - 1] == b
    ensures ParentTagFrom(text, lo, |text| - 1, []) == Some(a)
  {
    OpenedChildSteps(text, lo, o1, o2, o3 - 1, a, b);
    ClosedChildSteps(text, lo, o3, a, b);
  }

  /** The tag stack at work, over arbitrary plain names a and b: at the end
      of `<a><b></b>` the closed child b is skipped and the parent is a,
      whatever text comes before. */
  lemma ClosedChildIsSkipped(pre: string, a: string, b: string, text: string, lo: nat)
    requires PlainName(a) && PlainName(b) && lo <= |pre|
    requires text == pre + "<" + a + ">" + "<" + b + ">" + "</" + b + ">"
    ensures ParentTagFrom(text, lo, |text| - 1, []) == Some(a)
  {
    ClosedChildLayout(pre, a, b, text);
    ClosedChildAt(text, lo, |pre|, |pre| + |a| + 2, |pre| + |a| + |b| + 4, a, b);
  }

  /** The comment used by the witness below: it holds a tag of its own. */
  const CommentWithTag := "<!-- <b> -->"

  /** The comment laid out at p is the nearest "<!--" before its end. */
  lemma CommentWithTagFound(text: string, lo: nat, p: nat)
    requires lo <= p && p + 12 <= |text| && text[p..p + 12] == CommentWithTag
    ensures FindBackward(text, "<!--", p + 8, lo) == p
  {
    assert text[p..p + 4] == CommentWithTag[..4];
    assert forall k :: p < k <= p + 5 ==> text[k] == CommentWithTag[k - p];
    forall k | p < k && k + 4 <= p + 9
      ensures !OccursAt(text, "<!--", k)
    {
      if k == p + 5 {
        assert text[k + 1] == 'b';
        assert text[k..k + 4][1] == 'b';
      } else {
        assert text[k] != '<';
        assert text[k..k + 4][0] == text[k];
      }
    }
    FindBackwardFinds(text, "<!--", p + 8, lo, p);
  }

  /** The comment at p that ends the text is skipped as a whole. */
  lemma CommentWithTagSkipped(text: string, lo: nat, p: nat)
    requires lo <= p && |text| == p + 12 && text[p..p + 12] == CommentWithTag
    ensures ParentTagFrom(text, lo, |text| - 1, []) == ParentTagFrom(text, lo, p - 1, [])
  {
    var c := |text| - 1;
    assert text[c] == CommentWithTag[11] && text[c - 1] == CommentWithTag[10] && text[c - 2] == CommentWithTag[9];
    CommentIsSkipped(text, lo, c, c, []);
    CommentWithTagFound(text, lo, p);
  }

  /** Scanning down from the end of the comment at p that follows `<a>` at
      o1: the comment is skipped and a is the parent. */
  lemma CommentedChildAt(text: string, lo: nat, o1: nat, p: nat, a: string)
    requires PlainName(a) && lo <= o1 && p == o1 + |a| + 2 && |text| == p + 12
    requires text[o1] == '<' && text[p - 1] == '>' && text[o1 + 1..p - 1] == a
    requires text[p..p + 12] == CommentWithTag
    ensures ParentTagFrom(text, lo, |text| - 1, []) == Some(a)
  {
    CommentWithTagSkipped(text, lo, p);
    PlainOpeningTagIsParent(text, lo, o1, p - 1, a);
  }

  /** Where the tags of pre + `<a><!-- <b> -->` lie. */
  lemma CommentedChildLayout(pre: string, a: string, text: string)
    requires a != ""
    requires text == pre + "<" + a + ">" + CommentWithTag
    ensures var p := |pre| + |a| + 2;
      |text| == p + 12 && text[|pre|] == '<' && text[p - 1] == '>' && text[|pre| + 1..p - 1] == a &&
      text[p..p + 12] == CommentWithTag
  {
  }

  /** The comment skip at work: in pre + `<a><!-- <b> -->` the `<b>` inside
      the comment is not taken for a tag, and a is the parent. */
  lemma CommentIsNotParent(pre: string, a: string, text: string, lo: nat)
    requires PlainName(a) && lo <= |pre|
    requires text == pre + "<" + a + ">" + CommentWithTag
    ensures ParentTagFrom(text, lo, |text| - 1, []) == Some(a)
  {
    CommentedChildLayout(pre, a, text);
    CommentedChildAt(text, lo, |pre|, |pre| + |a| + 2, a);
  }
}
