/**
 * Detection of the namespace prefix bound to the A2v10 XAML namespace
 * (Parser/XmlContextParser.cs:469-539): a forward scan over the start of the
 * document for `xmlns` or `xmlns:p` declarations whose quoted value contains
 * `clr-namespace:A2v10.Xaml`.
 */
module XmlnsScan {
  import opened Wrappers
  import opened XmlText

  const A2v10NamespaceMarker := "clr-namespace:A2v10.Xaml"

  /** The value contains the A2v10 namespace marker. */
  predicate MentionsA2v10(value: string) {
    IndexOf(value, A2v10NamespaceMarker, 0) >= 0
  }

  /** What the loop does with the `xmlns` found at x: return a prefix (None
      for the default namespace), or resume the search at a later index. */
  datatype XmlnsStep = Return(prefix: Option<string>) | Resume(at: nat)

  /** The prefix written after `xmlns:` at x (None when there is none), and
      the index after it. */
  function PrefixAfter(text: string, end: nat, x: nat): (r: (Option<string>, nat))
    requires x + 5 < end <= |text|
    ensures x + 5 <= r.1 <= end
  {
    if text[x + 5] == ':' then
      var prefixEnd := NameRunEnd(text, x + 6, end);
      (if prefixEnd > x + 6 then Some(text[x + 6..prefixEnd]) else None, prefixEnd)
    else (None, x + 5)
  }

  /** One turn of the loop once `xmlns` is found at x with room after it. */
  function DeclarationAt(text: string, end: nat, x: nat): (r: XmlnsStep)
    requires x + 5 < end <= |text|
    ensures r.Resume? ==> r.at > x
  {
    var p := PrefixAfter(text, end, x);
    AssignmentAt(text, end, p.1, p.0)
  }

  /** After the prefix: optional whitespace, '=', optional whitespace. */
  function AssignmentAt(text: string, end: nat, afterPrefix: nat, prefix: Option<string>): (r: XmlnsStep)
    requires afterPrefix <= end <= |text|
    ensures r.Resume? ==> r.at > afterPrefix
  {
    var eq := SkipWhiteSpace(text, afterPrefix, end);
    if eq >= end || text[eq] != '=' then Resume(eq + 1)
    else ValueAt(text, end, SkipWhiteSpace(text, eq + 1, end), prefix)
  }

  /** At q, where the quoted value should start. */
  function ValueAt(text: string, end: nat, q: nat, prefix: Option<string>): (r: XmlnsStep)
    requires q <= end <= |text|
    ensures r.Resume? ==> r.at > q
  {
    if q >= end then Return(None)
    else if !IsQuote(text[q]) then Resume(q + 1)
    else
      var valEnd := IndexOfChar(text, text[q], q + 1);
      if valEnd < 0 || valEnd >= end then Resume(q + 1)
      else if MentionsA2v10(text[q + 1..valEnd]) then Return(prefix)
      else Resume(valEnd + 1)
  }

  /** The result of the scan from searchPos over text[..end]. */
  function PrefixScan(text: string, end: nat, searchPos: nat): Option<string>
    requires end <= |text|
    decreases end - searchPos
  {
    if searchPos >= end then None
    else
      var x := IndexOf(text, "xmlns", searchPos);
      if x < 0 || x >= end || x + 5 >= end then None
      else
        match DeclarationAt(text, end, x)
        case Return(prefix) => prefix
        case Resume(next) => PrefixScan(text, end, next)
  }

  /** The prefix part of the loop body (`xmlns:` and a run of name
      characters). */
  method ReadPrefix(text: string, end: nat, x: nat) returns (prefix: Option<string>, afterXmlns: nat)
    requires x + 5 < end <= |text|
    ensures (prefix, afterXmlns) == PrefixAfter(text, end, x)
  {
    afterXmlns := x + 5;
    prefix := None;
    if text[afterXmlns] == ':' {
      var prefixStart := afterXmlns + 1;
      var prefixEnd := ReadNameRun(text, prefixStart, end);
      if prefixEnd > prefixStart {
        prefix := Some(text[prefixStart..prefixEnd]);
      }
      afterXmlns := prefixEnd;
    }
  }

  /** The rest of the loop body: '=' and the quoted value. */
  method ReadAssignment(text: string, end: nat, afterPrefix: nat, prefix: Option<string>) returns (step: XmlnsStep)
    requires afterPrefix <= end <= |text|
    ensures step == AssignmentAt(text, end, afterPrefix, prefix)
  {
    var afterXmlns := SkipWhiteSpaceForward(text, afterPrefix, end);
    if afterXmlns >= end || text[afterXmlns] != '=' {
      return Resume(afterXmlns + 1);
    }
    afterXmlns := SkipWhiteSpaceForward(text, afterXmlns + 1, end);
    step := ReadValue(text, end, afterXmlns, prefix);
  }

  method ReadValue(text: string, end: nat, afterXmlns: nat, prefix: Option<string>) returns (step: XmlnsStep)
    requires afterXmlns <= end <= |text|
    ensures step == ValueAt(text, end, afterXmlns, prefix)
  {
    if afterXmlns >= end {
      return Return(None);
    }
    var q := text[afterXmlns];
    if q != '"' && q != '\'' {
      return Resume(afterXmlns + 1);
    }
    var valStart := afterXmlns + 1;
    var valEnd := IndexOfChar(text, q, valStart);
    if valEnd < 0 || valEnd >= end {
      return Resume(valStart);
    }
    var value := text[valStart..valEnd];
    if IndexOf(value, A2v10NamespaceMarker, 0) >= 0 {
      return Return(prefix);
    }
    return Resume(valEnd + 1);
  }

  /** DetectA2v10Prefix: the prefix of the first declaration in
      text[..min(|text|, limit)] whose value names the A2v10 namespace. */
  method DetectA2v10Prefix(text: string, limit: nat) returns (r: Option<string>)
    ensures r == PrefixScan(text, if |text| < limit then |text| else limit, 0)
  {
    var end := if |text| < limit then |text| else limit;
    var searchPos := 0;
    while searchPos < end
      invariant PrefixScan(text, end, searchPos) == PrefixScan(text, end, 0)
      decreases end - searchPos
    {
      var xmlnsPos := IndexOf(text, "xmlns", searchPos);
      if xmlnsPos < 0 || xmlnsPos >= end || xmlnsPos + 5 >= end {
        return None;
      }
      var prefix, afterPrefix := ReadPrefix(text, end, xmlnsPos);
      var step := ReadAssignment(text, end, afterPrefix, prefix);
      match step {
        case Return(found) => return found;
        case Resume(next) => searchPos := next;
      }
    }
    return None;
  }

  // ---------------------------------------------------------------------------
  // Only the window counts
  // ---------------------------------------------------------------------------

  /** An occurrence lying inside the shared window is found by both texts. */
  lemma {:induction false} IndexOfInWindow(t1: string, t2: string, pattern: string, from: nat, end: nat)
    requires |pattern| > 0
    requires end <= |t1| && end <= |t2| && t1[..end] == t2[..end]
    ensures var x := IndexOf(t1, pattern, from);
      0 <= x && x + |pattern| <= end ==> IndexOf(t2, pattern, from) == x
    decreases end - from
  {
    if from + |pattern| <= end {
      WindowSlice(t1, t2, end, from, from + |pattern|);
      if !OccursAt(t1, pattern, from) {
        IndexOfInWindow(t1, t2, pattern, from + 1, end);
      }
    }
  }

  /** The same for a single character. */
  lemma {:induction false} IndexOfCharInWindow(t1: string, t2: string, c: char, from: nat, end: nat)
    requires from <= end <= |t1| && end <= |t2| && t1[..end] == t2[..end]
    ensures var x := IndexOfChar(t1, c, from);
      0 <= x < end ==> IndexOfChar(t2, c, from) == x
    decreases end - from
  {
    if from < end {
      WindowChar(t1, t2, end, from);
      if t1[from] != c {
        IndexOfCharInWindow(t1, t2, c, from + 1, end);
      }
    }
  }

  lemma {:induction false} NameRunEndInWindow(t1: string, t2: string, from: nat, end: nat)
    requires end <= |t1| && end <= |t2| && t1[..end] == t2[..end]
    ensures NameRunEnd(t1, from, end) == NameRunEnd(t2, from, end)
    decreases end - from
  {
    if from < end {
      WindowChar(t1, t2, end, from);
      NameRunEndInWindow(t1, t2, from + 1, end);
    }
  }

  lemma {:induction false} SkipWhiteSpaceInWindow(t1: string, t2: string, from: nat, end: nat)
    requires end <= |t1| && end <= |t2| && t1[..end] == t2[..end]
    ensures SkipWhiteSpace(t1, from, end) == SkipWhiteSpace(t2, from, end)
    decreases end - from
  {
    if from < end {
      WindowChar(t1, t2, end, from);
      SkipWhiteSpaceInWindow(t1, t2, from + 1, end);
    }
  }

  /** Two texts that agree on text[..end] agree on every slice of it. */
  lemma WindowSlice(t1: string, t2: string, end: nat, a: nat, b: nat)
    requires a <= b <= end <= |t1| && end <= |t2| && t1[..end] == t2[..end]
    ensures t1[a..b] == t2[a..b]
  {
    forall k | a <= k < b
      ensures t1[k] == t2[k]
    {
      WindowChar(t1, t2, end, k);
    }
  }

  lemma WindowChar(t1: string, t2: string, end: nat, k: nat)
    requires k < end <= |t1| && end <= |t2| && t1[..end] == t2[..end]
    ensures t1[k] == t2[k]
  {
    assert t1[k] == t1[..end][k];
    assert t2[k] == t2[..end][k];
  }

  lemma PrefixAfterInWindow(t1: string, t2: string, end: nat, x: nat)
    requires x + 5 < end <= |t1| && end <= |t2| && t1[..end] == t2[..end]
    ensures PrefixAfter(t1, end, x) == PrefixAfter(t2, end, x)
  {
    WindowChar(t1, t2, end, x + 5);
    NameRunEndInWindow(t1, t2, x + 6, end);
    var e := NameRunEnd(t1, x + 6, end);
    if t1[x + 5] == ':' && e > x + 6 {
      WindowSlice(t1, t2, end, x + 6, e);
    }
  }

  lemma ValueAtInWindow(t1: string, t2: string, end: nat, q: nat, prefix: Option<string>)
    requires q <= end <= |t1| && end <= |t2| && t1[..end] == t2[..end]
    ensures ValueAt(t1, end, q, prefix) == ValueAt(t2, end, q, prefix)
  {
    if q < end {
      WindowChar(t1, t2, end, q);
      IndexOfCharInWindow(t1, t2, t1[q], q + 1, end);
      IndexOfCharInWindow(t2, t1, t1[q], q + 1, end);
      var valEnd := IndexOfChar(t1, t1[q], q + 1);
      if 0 <= valEnd < end {
        WindowSlice(t1, t2, end, q + 1, valEnd);
      }
    }
  }

  /** AssignmentAt gives the same step on two texts when the pieces it reads
      agree. */
  lemma AssignmentAtCongruent(t1: string, t2: string, end: nat, afterPrefix: nat, prefix: Option<string>)
    requires afterPrefix <= end <= |t1| && end <= |t2|
    requires SkipWhiteSpace(t1, afterPrefix, end) == SkipWhiteSpace(t2, afterPrefix, end)
    requires var eq := SkipWhiteSpace(t1, afterPrefix, end);
      eq < end ==>
        (t1[eq] == t2[eq] &&
         (t1[eq] == '=' ==>
            SkipWhiteSpace(t1, eq + 1, end) == SkipWhiteSpace(t2, eq + 1, end) &&
            ValueAt(t1, end, SkipWhiteSpace(t1, eq + 1, end), prefix) == ValueAt(t2, end, SkipWhiteSpace(t1, eq + 1, end), prefix)))
    ensures AssignmentAt(t1, end, afterPrefix, prefix) == AssignmentAt(t2, end, afterPrefix, prefix)
  {
  }

  lemma AssignmentAtInWindow(t1: string, t2: string, end: nat, afterPrefix: nat, prefix: Option<string>)
    requires afterPrefix <= end <= |t1| && end <= |t2| && t1[..end] == t2[..end]
    ensures AssignmentAt(t1, end, afterPrefix, prefix) == AssignmentAt(t2, end, afterPrefix, prefix)
  {
    SkipWhiteSpaceInWindow(t1, t2, afterPrefix, end);
    var eq := SkipWhiteSpace(t1, afterPrefix, end);
    if eq < end {
      WindowChar(t1, t2, end, eq);
      if t1[eq] == '=' {
        SkipWhiteSpaceInWindow(t1, t2, eq + 1, end);
        ValueAtInWindow(t1, t2, end, SkipWhiteSpace(t1, eq + 1, end), prefix);
      }
    }
    AssignmentAtCongruent(t1, t2, end, afterPrefix, prefix);
  }

  lemma DeclarationInWindow(t1: string, t2: string, end: nat, x: nat)
    requires x + 5 < end <= |t1| && end <= |t2| && t1[..end] == t2[..end]
    ensures DeclarationAt(t1, end, x) == DeclarationAt(t2, end, x)
  {
    PrefixAfterInWindow(t1, t2, end, x);
    var p := PrefixAfter(t1, end, x);
    AssignmentAtInWindow(t1, t2, end, p.1, p.0);
  }

  /** The scan reads nothing at or after `end`: two texts that agree on
      text[..end] give the same prefix. */
  lemma {:induction false} PrefixScanReadsOnlyWindow(t1: string, t2: string, end: nat, searchPos: nat)
    requires end <= |t1| && end <= |t2| && t1[..end] == t2[..end]
    ensures PrefixScan(t1, end, searchPos) == PrefixScan(t2, end, searchPos)
    decreases end - searchPos
  {
    if searchPos < end {
      IndexOfInWindow(t1, t2, "xmlns", searchPos, end);
      IndexOfInWindow(t2, t1, "xmlns", searchPos, end);
      var x := IndexOf(t1, "xmlns", searchPos);
      if 0 <= x && x + 5 < end {
        DeclarationInWindow(t1, t2, end, x);
        if DeclarationAt(t1, end, x).Resume? {
          PrefixScanReadsOnlyWindow(t1, t2, end, DeclarationAt(t1, end, x).at);
        }
      }
    }
  }

  /** DetectA2v10Prefix's result is a function of text[..min(|text|, limit)]. */
  lemma DetectionReadsOnlyWindow(t1: string, t2: string, limit: nat)
    requires limit <= |t1| && limit <= |t2| && t1[..limit] == t2[..limit]
    ensures PrefixScan(t1, limit, 0) == PrefixScan(t2, limit, 0)
  {
    PrefixScanReadsOnlyWindow(t1, t2, limit, 0);
  }

  // ---------------------------------------------------------------------------
  // What a found prefix means
  // ---------------------------------------------------------------------------

  lemma ValueAtFound(text: string, end: nat, q: nat, prefix: Option<string>) returns (close: nat)
    requires q <= end <= |text|
    ensures var r := ValueAt(text, end, q, prefix);
      r.Return? && r.prefix.Some? ==>
        r.prefix == prefix && q < close < end && IsQuote(text[q]) && text[close] == text[q] &&
        MentionsA2v10(text[q + 1..close])
  {
    close := 0;
    if q < end && IsQuote(text[q]) {
      var valEnd := IndexOfChar(text, text[q], q + 1);
      if 0 <= valEnd {
        close := valEnd;
      }
    }
  }

  lemma AssignmentAtFound(text: string, end: nat, afterPrefix: nat, prefix: Option<string>)
    returns (open: nat, close: nat)
    requires afterPrefix <= end <= |text|
    ensures var r := AssignmentAt(text, end, afterPrefix, prefix);
      r.Return? && r.prefix.Some? ==>
        r.prefix == prefix && afterPrefix <= open < close < end && IsQuote(text[open]) &&
        text[close] == text[open] && MentionsA2v10(text[open + 1..close])
  {
    var eq := SkipWhiteSpace(text, afterPrefix, end);
    open := SkipWhiteSpace(text, eq + 1, end);
    close := 0;
    if eq < end && text[eq] == '=' {
      close := ValueAtFound(text, end, open, prefix);
    }
  }

  lemma PrefixAfterFound(text: string, end: nat, x: nat)
    requires x + 5 < end <= |text|
    ensures var p := PrefixAfter(text, end, x);
      p.0.Some? ==>
        text[x + 5] == ':' && p.1 == x + 6 + |p.0.value| && p.0.value != "" && OccursAt(text, p.0.value, x + 6)
  {
  }

  /** `xmlns:` at x is followed by the prefix p and then, inside the window,
      by a quoted value from open to close that mentions the A2v10
      namespace. */
  predicate DeclaresA2v10Prefix(text: string, end: nat, x: nat, p: string, open: nat, close: nat) {
    OccursAt(text, "xmlns:", x) && OccursAt(text, p, x + 6) && p != "" &&
    x + 6 + |p| <= open < close < end <= |text| &&
    IsQuote(text[open]) && text[close] == text[open] && MentionsA2v10(text[open + 1..close])
  }

  /** A declaration that returns a prefix is `xmlns:` followed by that
      prefix and a quoted value that mentions the A2v10 namespace. */
  lemma DeclarationFound(text: string, end: nat, x: nat) returns (open: nat, close: nat)
    requires x + 5 < end <= |text| && OccursAt(text, "xmlns", x)
    ensures var r := DeclarationAt(text, end, x);
      r.Return? && r.prefix.Some? ==> DeclaresA2v10Prefix(text, end, x, r.prefix.value, open, close)
  {
    var p := PrefixAfter(text, end, x);
    PrefixAfterFound(text, end, x);
    open, close := AssignmentAtFound(text, end, p.1, p.0);
    if p.0.Some? {
      assert text[x..x + 6] == text[x..x + 5] + [text[x + 5]];
    }
  }

  /** A returned prefix is a non-empty run of characters written right after
      an `xmlns:` at or after searchPos, and a quoted value that mentions the
      A2v10 namespace closes inside the window after it. */
  lemma {:induction false} PrefixScanFindsDeclaration(text: string, end: nat, searchPos: nat)
    returns (x: nat, open: nat, close: nat)
    requires end <= |text|
    ensures var r := PrefixScan(text, end, searchPos);
      r.Some? ==> searchPos <= x && DeclaresA2v10Prefix(text, end, x, r.value, open, close)
    decreases end - searchPos
  {
    x, open, close := 0, 0, 0;
    if searchPos < end {
      var x0 := IndexOf(text, "xmlns", searchPos);
      if 0 <= x0 && x0 + 5 < end {
        var step := DeclarationAt(text, end, x0);
        if step.Resume? {
          assert PrefixScan(text, end, searchPos) == PrefixScan(text, end, step.at);
          x, open, close := PrefixScanFindsDeclaration(text, end, step.at);
        } else {
          assert PrefixScan(text, end, searchPos) == step.prefix;
          x := x0;
          open, close := DeclarationFound(text, end, x0);
        }
      }
    }
  }

  // ---------------------------------------------------------------------------
  // Which declarations are found
  // ---------------------------------------------------------------------------

  /** From i on: optional whitespace, '=' at eq, optional whitespace, and a
      value quoted from open up to the next occurrence of the same quote at
      close, all inside text[..end]. */
  predicate QuotedAssignment(text: string, end: nat, i: nat, eq: nat, open: nat, close: nat) {
    i <= eq < open < close < end <= |text| &&
    (forall k :: i <= k < eq ==> IsWhiteSpace(text[k])) && text[eq] == '=' &&
    (forall k :: eq < k < open ==> IsWhiteSpace(text[k])) &&
    IsQuote(text[open]) && text[close] == text[open] &&
    (forall k :: open < k < close ==> text[k] != text[open])
  }

  /** An xmlns declaration at x: `xmlns` for the default namespace when p is
      empty, `xmlns:p` with p a run of name characters otherwise, followed by
      a quoted assignment. */
  predicate XmlnsDeclaration(text: string, end: nat, x: nat, p: string, eq: nat, open: nat, close: nat) {
    if p == "" then
      OccursAt(text, "xmlns", x) && QuotedAssignment(text, end, x + 5, eq, open, close)
    else
      OccursAt(text, "xmlns:", x) && OccursAt(text, p, x + 6) &&
      (forall k :: 0 <= k < |p| ==> IsNameChar(p[k])) &&
      QuotedAssignment(text, end, x + 6 + |p|, eq, open, close)
  }

  /** A value quoted from open to close is read whole: its prefix is
      returned when it names A2v10, and the scan resumes after it
      otherwise. */
  lemma ValueAtQuoted(text: string, end: nat, open: nat, close: nat, prefix: Option<string>)
    requires open < close < end <= |text| && IsQuote(text[open]) && text[close] == text[open]
    requires forall k :: open < k < close ==> text[k] != text[open]
    ensures ValueAt(text, end, open, prefix) ==
      if MentionsA2v10(text[open + 1..close]) then Return(prefix) else Resume(close + 1)
  {
    IndexOfCharAt(text, text[open], open + 1, close);
  }

  /** Past the whitespace and the '=' of an assignment, the value is read
      from its opening quote. */
  lemma AssignmentReachesValue(text: string, end: nat, i: nat, eq: nat, open: nat, close: nat, prefix: Option<string>)
    requires QuotedAssignment(text, end, i, eq, open, close)
    ensures AssignmentAt(text, end, i, prefix) == ValueAt(text, end, open, prefix)
  {
    SkipWhiteSpaceAt(text, i, end, eq);
    SkipWhiteSpaceAt(text, eq + 1, end, open);
  }

  /** A quoted assignment returns the prefix when its value mentions the
      A2v10 namespace and resumes after the closing quote otherwise. */
  lemma AssignmentAtQuoted(text: string, end: nat, i: nat, eq: nat, open: nat, close: nat, prefix: Option<string>)
    requires QuotedAssignment(text, end, i, eq, open, close)
    ensures AssignmentAt(text, end, i, prefix) ==
      if MentionsA2v10(text[open + 1..close]) then Return(prefix) else Resume(close + 1)
  {
    AssignmentReachesValue(text, end, i, eq, open, close, prefix);
    ValueAtQuoted(text, end, open, close, prefix);
  }

  /** The step at an xmlns declaration: its prefix (None for the default
      namespace) when the value mentions the A2v10 namespace, otherwise the
      search resumes after the value. */
  lemma DeclarationAtXmlns(text: string, end: nat, x: nat, p: string, eq: nat, open: nat, close: nat)
    requires XmlnsDeclaration(text, end, x, p, eq, open, close)
    ensures x + 5 < end
    ensures DeclarationAt(text, end, x) ==
      if MentionsA2v10(text[open + 1..close]) then Return(if p == "" then None else Some(p))
      else Resume(close + 1)
  {
    var afterPrefix := if p == "" then x + 5 else x + 6 + |p|;
    CharClasses(text[afterPrefix]);
    if p == "" {
      assert PrefixAfter(text, end, x) == (None, x + 5);
    } else {
      assert text[x + 5] == text[x..x + 6][5] == ':';
      forall k | x + 6 <= k < afterPrefix
        ensures IsNameChar(text[k])
      {
        assert text[k] == text[x + 6..afterPrefix][k - x - 6] == p[k - x - 6];
      }
      NameRunEndAt(text, x + 6, end, afterPrefix);
      assert PrefixAfter(text, end, x) == (Some(p), afterPrefix);
    }
    AssignmentAtQuoted(text, end, afterPrefix, eq, open, close, if p == "" then None else Some(p));
  }

  /** Completeness of the scan: when the first `xmlns` at or after searchPos
      is a declaration, the scan returns its prefix if the value mentions the
      A2v10 namespace (None for the default namespace), and otherwise goes on
      after the value.  Together with PrefixScanFindsDeclaration: a prefix is
      returned exactly for the first `xmlns:p` declaration of the A2v10
      namespace, and None when the scan meets no such declaration. */
  lemma ScanAtDeclaration(text: string, end: nat, searchPos: nat, x: nat, p: string, eq: nat, open: nat, close: nat)
    requires end <= |text| && x == IndexOf(text, "xmlns", searchPos)
    requires XmlnsDeclaration(text, end, x, p, eq, open, close)
    ensures PrefixScan(text, end, searchPos) ==
      if MentionsA2v10(text[open + 1..close]) then (if p == "" then None else Some(p))
      else PrefixScan(text, end, close + 1)
  {
    DeclarationAtXmlns(text, end, x, p, eq, open, close);
  }

  /** A declaration `xmlns:p="…clr-namespace:A2v10.Xaml…"` (with optional
      whitespace around '=', either quote) that is the first `xmlns` at or
      after searchPos gives p. */
  lemma DeclaredPrefixIsFound(text: string, end: nat, searchPos: nat, x: nat, p: string, eq: nat, open: nat, close: nat)
    requires end <= |text| && x == IndexOf(text, "xmlns", searchPos) && p != ""
    requires XmlnsDeclaration(text, end, x, p, eq, open, close) && MentionsA2v10(text[open + 1..close])
    ensures PrefixScan(text, end, searchPos) == Some(p)
  {
    ScanAtDeclaration(text, end, searchPos, x, p, eq, open, close);
  }

  /** The default-namespace declaration of A2v10 gives no prefix: when the
      first `xmlns` at or after searchPos is `xmlns = "…"` (optional
      whitespace, either quote) with a value naming the namespace, the
      result is None. */
  lemma DefaultNamespaceGivesNone(text: string, end: nat, searchPos: nat, x: nat, eq: nat, open: nat, close: nat)
    requires end <= |text| && x == IndexOf(text, "xmlns", searchPos)
    requires XmlnsDeclaration(text, end, x, "", eq, open, close) && MentionsA2v10(text[open + 1..close])
    ensures PrefixScan(text, end, searchPos) == None
  {
    ScanAtDeclaration(text, end, searchPos, x, "", eq, open, close);
  }
}
