/**
 * What the cursor-context classifier promises (Parser/XmlContextParser.cs),
 * stated about the specification functions of module XmlContextParser, which
 * its methods are proved equal to.
 */
module ContextProperties {
  import opened Wrappers
  import opened XmlText
  import opened XmlContextModel
  import opened TagScan
  import opened AttributeScan
  import opened XmlnsScan
  import opened XmlContextParser

  // ---------------------------------------------------------------------------
  // Degenerate input
  // ---------------------------------------------------------------------------

  /** Empty text or a cursor outside [0, |text|] gives None; the cursor at 0
      gives Content; neither looks for a prefix. */
  lemma DegenerateInput(text: string, position: int)
    ensures (|text| == 0 || position < 0 || position > |text|) ==> ContextAt(text, position) == EmptyContext(NoContext)
    ensures (|text| > 0 && position == 0) ==> ContextAt(text, position) == EmptyContext(Content)
  {
  }

  // ---------------------------------------------------------------------------
  // Comments, CDATA sections, processing instructions
  // ---------------------------------------------------------------------------

  /** `open` occurs at k, inside the window and before the cursor, and no
      `close` starts between its end and the cursor. */
  predicate UnclosedIn(text: string, scanStart: nat, position: nat, open: string, close: string, k: int)
    requires position <= |text|
  {
    scanStart <= k && k + |open| <= position && OccursAt(text, open, k) &&
    forall j :: k + |open| <= j < position ==> !OccursAt(text, close, j)
  }

  /** The nearest opener found by FindBackward is unclosed whenever any opener
      in the window is. */
  lemma NearestOpenerUnclosed(text: string, scanStart: nat, position: nat, open: string, close: string, k: int)
    requires 0 < position <= |text| && |open| > 0 && |close| > 0
    requires UnclosedIn(text, scanStart, position, open, close, k)
    ensures var o := FindBackward(text, open, position - 1, scanStart);
      k <= o && UnclosedIn(text, scanStart, position, open, close, o) &&
      var c := FindForward(text, close, o + |open|);
      c < 0 || c >= position
  {
    FindBackwardIsLast(text, open, position - 1, scanStart);
    var o := FindBackward(text, open, position - 1, scanStart);
    assert k <= o;
    if o + |open| < |text| {
      FindForwardIsFirst(text, close, o + |open|);
    }
  }

  /** An unclosed `<!--` or `<![CDATA[` anywhere in the window puts the
      cursor in a special construct. */
  lemma UnclosedCommentOrCDataIsSpecial(text: string, scanStart: nat, position: nat, k: int)
    requires 0 < position <= |text|
    requires UnclosedIn(text, scanStart, position, "<!--", "-->", k) ||
             UnclosedIn(text, scanStart, position, "<![CDATA[", "]]>", k)
    ensures InSpecialConstruct(text, scanStart, position)
  {
    if UnclosedIn(text, scanStart, position, "<!--", "-->", k) {
      NearestOpenerUnclosed(text, scanStart, position, "<!--", "-->", k);
    } else {
      NearestOpenerUnclosed(text, scanStart, position, "<![CDATA[", "]]>", k);
    }
  }

  /** No `<![CDATA[` lies in the window after k. */
  predicate NoCDataOpenerAfter(text: string, scanStart: nat, position: nat, k: int)
    requires position <= |text|
  {
    forall j :: scanStart <= j && j + 9 <= position && OccursAt(text, "<![CDATA[", j) ==> j < k
  }

  /** An unclosed `<?` counts only when no `<![CDATA[` opener in the window
      comes after it, whether or not that CDATA section is closed. */
  lemma UnclosedPIIsSpecial(text: string, scanStart: nat, position: nat, k: int)
    requires 0 < position <= |text|
    requires UnclosedIn(text, scanStart, position, "<?", "?>", k)
    requires NoCDataOpenerAfter(text, scanStart, position, k)
    ensures InSpecialConstruct(text, scanStart, position)
  {
    NearestOpenerUnclosed(text, scanStart, position, "<?", "?>", k);
    var p := FindBackward(text, "<?", position - 1, scanStart);
    assert text[p..p + 2] == "<?";
    assert text[p + 1] == '?';
    var c := FindBackward(text, "<![CDATA[", position - 1, scanStart);
    assert c < 0 || c < k;
  }

  /** The nearest opener whose closer is not found before the cursor is
      unclosed. */
  lemma FoundOpenerUnclosed(text: string, scanStart: nat, position: nat, open: string, close: string)
    requires 0 < position <= |text| && |open| > 0 && |close| > 0
    requires var k := FindBackward(text, open, position - 1, scanStart);
      k >= 0 && var c := FindForward(text, close, k + |open|); c < 0 || c >= position
    ensures UnclosedIn(text, scanStart, position, open, close, FindBackward(text, open, position - 1, scanStart))
  {
    var k := FindBackward(text, open, position - 1, scanStart);
    if k + |open| < |text| {
      FindForwardIsFirst(text, close, k + |open|);
    }
  }

  lemma CommentOpenerUnclosed(text: string, scanStart: nat, position: nat)
    requires 0 < position <= |text| && CommentUnclosed(text, scanStart, position)
    ensures UnclosedIn(text, scanStart, position, "<!--", "-->", FindBackward(text, "<!--", position - 1, scanStart))
  {
    FoundOpenerUnclosed(text, scanStart, position, "<!--", "-->");
  }

  lemma CDataOpenerUnclosed(text: string, scanStart: nat, position: nat)
    requires 0 < position <= |text| && CDataUnclosed(text, scanStart, position, -1)
    ensures UnclosedIn(text, scanStart, position, "<![CDATA[", "]]>", FindBackward(text, "<![CDATA[", position - 1, scanStart))
  {
    FoundOpenerUnclosed(text, scanStart, position, "<![CDATA[", "]]>");
  }

  lemma PIOpenerUnclosed(text: string, scanStart: nat, position: nat, cdataOpen: int)
    requires 0 < position <= |text| && PIUnclosed(text, scanStart, position, -1, cdataOpen)
    ensures UnclosedIn(text, scanStart, position, "<?", "?>", FindBackward(text, "<?", position - 1, scanStart))
  {
    FoundOpenerUnclosed(text, scanStart, position, "<?", "?>");
  }

  /** Conversely, the cursor is in a special construct only behind an
      unclosed opener in the window. */
  lemma SpecialHasUnclosedOpener(text: string, scanStart: nat, position: nat) returns (k: int)
    requires 0 < position <= |text|
    requires InSpecialConstruct(text, scanStart, position)
    ensures UnclosedIn(text, scanStart, position, "<!--", "-->", k) ||
            UnclosedIn(text, scanStart, position, "<![CDATA[", "]]>", k) ||
            UnclosedIn(text, scanStart, position, "<?", "?>", k)
  {
    if CommentUnclosed(text, scanStart, position) {
      k := FindBackward(text, "<!--", position - 1, scanStart);
      CommentOpenerUnclosed(text, scanStart, position);
    } else if CDataUnclosed(text, scanStart, position, -1) {
      k := FindBackward(text, "<![CDATA[", position - 1, scanStart);
      CDataOpenerUnclosed(text, scanStart, position);
    } else {
      k := FindBackward(text, "<?", position - 1, scanStart);
      PIOpenerUnclosed(text, scanStart, position, FindBackward(text, "<![CDATA[", position - 1, scanStart));
    }
  }

  // ---------------------------------------------------------------------------
  // Dispatch: None, Content or a tag
  // ---------------------------------------------------------------------------

  /** The nearest angle bracket before the cursor in the window is a '>', or
      there is none. */
  predicate NearestAngleCloses(text: string, lo: nat, position: nat)
    requires position <= |text|
  {
    NoAngleIn(text, lo, position) ||
    exists j :: lo <= j < position && text[j] == '>' && NoAngleIn(text, j + 1, position)
  }

  /** The '<' at t is the nearest angle bracket before the cursor. */
  predicate UnclosedTagAt(text: string, lo: nat, position: nat, t: int)
    requires position <= |text|
  {
    lo <= t < position && text[t] == '<' && NoAngleIn(text, t + 1, position)
  }

  /** FindNearestUnclosedTagOpen finds the '<' that is the nearest angle
      bracket, and -1 exactly when that bracket is a '>' or none. */
  lemma UnclosedTagOpenMeaning(text: string, lo: nat, position: nat)
    requires position <= |text|
    ensures var t := UnclosedTagOpenFrom(text, lo, position - 1);
      (t >= 0 ==> UnclosedTagAt(text, lo, position, t)) &&
      (t < 0 <==> NearestAngleCloses(text, lo, position))
  {
    UnclosedTagOpenIsNearest(text, lo, position - 1);
    var t := UnclosedTagOpenFrom(text, lo, position - 1);
    if t >= 0 {
      assert !NoAngleIn(text, lo, position) by {
        assert text[t] == '<';
      }
      forall j | lo <= j < position && text[j] == '>'
        ensures !NoAngleIn(text, j + 1, position)
      {
        assert j < t;
        assert text[t] == '<';
      }
    }
  }

  /** At most one '<' is the nearest angle bracket. */
  lemma UnclosedTagAtUnique(text: string, lo: nat, position: nat, t1: int, t2: int)
    requires position <= |text|
    requires UnclosedTagAt(text, lo, position, t1) && UnclosedTagAt(text, lo, position, t2)
    ensures t1 == t2
  {
  }

  /** Outside special constructs, the cursor is in content exactly when the
      nearest angle bracket before it is a '>' (or there is none); the
      partial input is then empty and starts at the cursor. */
  lemma ContentExactlyAfterClose(text: string, position: nat)
    requires 0 < position <= |text|
    requires !InSpecialConstruct(text, ScanStart(position), position)
    ensures var ctx := ContextAt(text, position);
      (ctx.kind == Content <==> NearestAngleCloses(text, ScanStart(position), position)) &&
      (ctx.kind == Content ==> ctx.partialInput == Some("") && ctx.partialInputStart == position && ctx.currentTag == None)
  {
    ContextAtAttachesPrefix(text, position);
    ContentInExactlyAfterClose(text, ScanStart(position), position);
  }

  lemma ContentInExactlyAfterClose(text: string, lo: nat, position: nat)
    requires lo < position <= |text|
    requires !InSpecialConstruct(text, lo, position)
    ensures var ctx := ContextIn(text, lo, position);
      (ctx.kind == Content <==> NearestAngleCloses(text, lo, position)) &&
      (ctx.kind == Content ==> ctx.partialInput == Some("") && ctx.partialInputStart == position && ctx.currentTag == None)
  {
    UnclosedTagOpenMeaning(text, lo, position);
    var t := UnclosedTagOpenFrom(text, lo, position - 1);
    if t >= 0 {
      TagContextDispatch(text, lo, position, t);
      TagContextKinds(text, lo, t, position);
    } else {
      assert ContextIn(text, lo, position) == ContentContext(text, lo, position);
    }
  }

  /** Parse attaches the prefix to what DetermineContext gives. */
  lemma ContextAtAttachesPrefix(text: string, position: nat)
    requires 0 < position <= |text|
    ensures ContextAt(text, position) ==
      ContextIn(text, ScanStart(position), position).(a2v10Prefix := PrefixScan(text, XmlnsWindow(text, position), 0))
  {
  }

  /** Behind an unclosed '<', the context is the tag context built from it. */
  lemma TagContextAfterOpen(text: string, position: nat, t: int)
    requires 0 < position <= |text|
    requires !InSpecialConstruct(text, ScanStart(position), position)
    requires UnclosedTagAt(text, ScanStart(position), position, t)
    ensures ContextIn(text, ScanStart(position), position) == TagContext(text, ScanStart(position), t, position)
  {
    var lo := ScanStart(position);
    UnclosedTagOpenMeaning(text, lo, position);
    assert !NearestAngleCloses(text, lo, position) by {
      assert text[t] == '<';
      forall j | lo <= j < position && text[j] == '>'
        ensures !NoAngleIn(text, j + 1, position)
      {
        assert j < t;
        assert text[t] == '<';
      }
    }
    var r := UnclosedTagOpenFrom(text, lo, position - 1);
    UnclosedTagAtUnique(text, lo, position, t, r);
    TagContextDispatch(text, lo, position, r);
  }

  lemma TagContextDispatch(text: string, lo: nat, position: nat, t: int)
    requires lo < position <= |text|
    requires !InSpecialConstruct(text, lo, position)
    requires t == UnclosedTagOpenFrom(text, lo, position - 1) && t >= 0
    ensures ContextIn(text, lo, position) == TagContext(text, lo, t, position)
  {
  }

  /** None comes only from a special construct: every builder names a kind. */
  lemma NoContextExactlyInSpecial(text: string, position: nat)
    requires 0 < position <= |text|
    ensures ContextAt(text, position).kind == NoContext <==> InSpecialConstruct(text, ScanStart(position), position)
  {
    var lo := ScanStart(position);
    if !InSpecialConstruct(text, lo, position) {
      var t := UnclosedTagOpenFrom(text, lo, position - 1);
      if t >= 0 {
        TagContextKinds(text, lo, t, position);
      }
    }
  }

  /** The kinds a tag context can have. */
  lemma TagContextKinds(text: string, scanStart: nat, t: nat, position: nat)
    requires t < position <= |text|
    ensures TagContext(text, scanStart, t, position).kind in {TagName, ClosingTag, ElementProperty, AttributeName, AttributeValue}
  {
    var parent := ParentTagFrom(text, scanStart, t - 1, []);
    if OpensTag(text, t, position) {
      var tagNameEnd := TokenEnd(text, t + 1, position);
      assert TagContext(text, scanStart, t, position) == NamedTagContext(text, parent, t, tagNameEnd, position);
      NamedTagContextAllKinds(text, parent, t, tagNameEnd, position);
    } else {
      assert TagContext(text, scanStart, t, position) == OtherTagContext(text, parent, t, position);
      NotOpeningTagKinds(text, parent, t, position);
    }
  }

  lemma NamedTagContextAllKinds(text: string, parent: Option<string>, t: nat, tagNameEnd: nat, position: nat)
    requires t < tagNameEnd <= position <= |text|
    ensures var k := NamedTagContext(text, parent, t, tagNameEnd, position).kind;
      k != NoContext && k != Content && k != ClosingTag
  {
    if tagNameEnd < position {
    } else {
    }
  }

  // ---------------------------------------------------------------------------
  // The partial input is what was typed just before the cursor
  // ---------------------------------------------------------------------------

  /** In every tag context the partial input lies in text[start..position),
      start lies after the '<', and the partial is that text or the text with
      its namespace prefix stripped. */
  lemma TagContextPartial(text: string, scanStart: nat, t: nat, position: nat)
    requires t < position <= |text|
    ensures PartialIsTyped(text, t, position, TagContext(text, scanStart, t, position))
  {
    var parent := ParentTagFrom(text, scanStart, t - 1, []);
    if OpensTag(text, t, position) {
      NamedTagContextPartial(text, parent, t, TokenEnd(text, t + 1, position), position);
    } else {
      NotOpeningTagPartial(text, parent, t, position);
    }
  }

  lemma NotOpeningTagPartial(text: string, parent: Option<string>, t: nat, position: nat)
    requires t < position <= |text|
    ensures PartialIsTyped(text, t, position, OtherTagContext(text, parent, t, position))
  {
    if t + 1 >= position {
      EmptyTagPartial(text, parent, t, position);
    } else if text[t + 1] == '/' {
      ClosingTagPartial(text, parent, t, position);
    } else {
      OtherOpenerPartial(text, parent, t, position);
    }
  }

  lemma EmptyTagPartial(text: string, parent: Option<string>, t: nat, position: nat)
    requires t < position <= |text| && t + 1 >= position
    ensures PartialIsTyped(text, t, position, OtherTagContext(text, parent, t, position))
  {
    var ctx := OtherTagContext(text, parent, t, position);
    assert ctx.partialInputStart == t + 1 && ctx.partialInput == Some("");
  }

  lemma ClosingTagPartial(text: string, parent: Option<string>, t: nat, position: nat)
    requires t + 1 < position <= |text| && text[t + 1] == '/'
    ensures PartialIsTyped(text, t, position, OtherTagContext(text, parent, t, position))
  {
    var ctx := OtherTagContext(text, parent, t, position);
    assert ctx.partialInputStart == t + 2 && ctx.partialInput == Some(StripPrefix(text[t + 2..position]));
    StripPrefixIsSuffix(text[t + 2..position]);
  }

  lemma OtherOpenerPartial(text: string, parent: Option<string>, t: nat, position: nat)
    requires t + 1 < position <= |text| && text[t + 1] != '/'
    ensures PartialIsTyped(text, t, position, OtherTagContext(text, parent, t, position))
  {
    var ctx := OtherTagContext(text, parent, t, position);
    assert ctx.partialInputStart == t + 1 && ctx.partialInput == Some(text[t + 1..position]);
  }

  /** The typed-text property for one context. */
  predicate PartialIsTyped(text: string, lo: nat, position: nat, ctx: XmlContext)
    requires position <= |text|
  {
    lo < ctx.partialInputStart <= position && ctx.partialInput.Some? &&
    IsSuffix(ctx.partialInput.value, text[ctx.partialInputStart..position])
  }

  lemma NamedTagContextPartial(text: string, parent: Option<string>, t: nat, tagNameEnd: nat, position: nat)
    requires t < tagNameEnd <= position <= |text|
    ensures PartialIsTyped(text, t, position, NamedTagContext(text, parent, t, tagNameEnd, position))
  {
    var raw := text[t + 1..tagNameEnd];
    if tagNameEnd < position {
      AttributeContextPartial(text, parent, t, StripPrefix(raw), tagNameEnd, position);
    } else if IndexOfChar(raw, '.', 0) >= 0 {
      ElementPropertyPartial(text, parent, t, position);
    } else {
      TagNamePartial(text, parent, t, position);
    }
  }

  lemma ElementPropertyPartial(text: string, parent: Option<string>, t: nat, position: nat)
    requires t < position <= |text|
    requires IndexOfChar(text[t + 1..position], '.', 0) >= 0
    ensures PartialIsTyped(text, t, position, NamedTagContext(text, parent, t, position, position))
  {
    var raw := text[t + 1..position];
    var dot := IndexOfChar(raw, '.', 0);
    assert raw[dot + 1..] == text[t + 1 + dot + 1..position];
  }

  lemma TagNamePartial(text: string, parent: Option<string>, t: nat, position: nat)
    requires t < position <= |text|
    requires IndexOfChar(text[t + 1..position], '.', 0) < 0
    ensures PartialIsTyped(text, t, position, NamedTagContext(text, parent, t, position, position))
  {
    StripPrefixIsSuffix(text[t + 1..position]);
  }

  /** The same for the two attribute contexts. */
  lemma AttributeContextPartial(text: string, parent: Option<string>, t: nat, tagName: string, attrsStart: nat, position: nat)
    requires t < attrsStart <= position <= |text|
    ensures var ctx := AttributeContext(text, parent, tagName, attrsStart, position);
      attrsStart <= ctx.partialInputStart && PartialIsTyped(text, t, position, ctx)
  {
    var st := AttrScan(text, attrsStart, position);
    OpenQuoteAtCursor(text, attrsStart, position);
    if !st.inQuote {
      var s := AttrPartialStart(text, attrsStart, position);
      AttrPartialIsMaximalNameRun(text, attrsStart, position);
      StripPrefixIsSuffix(text[s..position]);
    }
  }

  /** For every kind but None, the partial input is a suffix of the text
      between its start and the cursor, and that start lies in the scan
      window. */
  lemma PartialInputIsTypedText(text: string, position: nat)
    requires 0 < position <= |text|
    ensures var ctx := ContextAt(text, position);
      ctx.kind != NoContext ==>
        ScanStart(position) <= ctx.partialInputStart <= position && ctx.partialInput.Some? &&
        IsSuffix(ctx.partialInput.value, text[ctx.partialInputStart..position])
  {
    var lo := ScanStart(position);
    if !InSpecialConstruct(text, lo, position) {
      var t := UnclosedTagOpenFrom(text, lo, position - 1);
      if t >= 0 {
        TagContextPartial(text, lo, t, position);
      }
    }
  }

  // ---------------------------------------------------------------------------
  // Element properties
  // ---------------------------------------------------------------------------

  /** No tag-name terminator in text[a..b). */
  predicate NoTerminatorIn(text: string, a: nat, b: nat)
    requires b <= |text|
  {
    forall k :: a <= k < b ==> !IsTagNameTerminator(text[k])
  }

  /** The text typed since the '<' at t is the start of an opening tag: one
      unterminated token, not starting with '/', '!' or '?', that holds a
      '.'. */
  predicate DottedOpeningToken(text: string, t: nat, position: nat)
    requires t < position <= |text|
  {
    t + 1 < position && text[t + 1] != '/' && text[t + 1] != '!' && text[t + 1] != '?' &&
    NoTerminatorIn(text, t + 1, position) && '.' in text[t + 1..position]
  }

  /** After '<' at t, the context is ElementProperty exactly when the tag is
      an opening one and everything typed since the '<' is one unterminated
      token holding a '.'. */
  lemma ElementPropertyExactly(text: string, scanStart: nat, t: nat, position: nat)
    requires t < position <= |text|
    ensures TagContext(text, scanStart, t, position).kind == ElementProperty <==> DottedOpeningToken(text, t, position)
  {
    var parent := ParentTagFrom(text, scanStart, t - 1, []);
    if OpensTag(text, t, position) {
      OpeningTagContext(text, scanStart, t, position);
      OpeningTagElementProperty(text, parent, t, position);
    } else {
      NotOpeningTagKinds(text, parent, t, position);
    }
  }

  /** The same for an opening tag, once its name token is read. */
  lemma OpeningTagElementProperty(text: string, parent: Option<string>, t: nat, position: nat)
    requires t + 1 < position <= |text|
    requires text[t + 1] != '/' && text[t + 1] != '!' && text[t + 1] != '?'
    ensures NamedTagContext(text, parent, t, TokenEnd(text, t + 1, position), position).kind == ElementProperty
      <==> DottedOpeningToken(text, t, position)
  {
    var tagNameEnd := TokenEnd(text, t + 1, position);
    if tagNameEnd < position {
      NamedTokenEndsEarly(text, t, position);
      NamedTagContextKinds(text, parent, t, tagNameEnd, position);
    } else {
      TokenHasNoTerminator(text, t + 1, position);
      NamedElementProperty(text, parent, t, position);
    }
  }

  /** After the '<' of an opening tag, the context is the one built from
      its name token. */
  lemma OpeningTagContext(text: string, scanStart: nat, t: nat, position: nat)
    requires t + 1 < position <= |text|
    requires text[t + 1] != '/' && text[t + 1] != '!' && text[t + 1] != '?'
    ensures TagContext(text, scanStart, t, position) == NamedTagContext(text, ParentTagFrom(text, scanStart, t - 1, []), t, TokenEnd(text, t + 1, position), position)
  {
  }

  /** An empty tag, a closing tag, a comment or a processing instruction
      gives TagName or ClosingTag. */
  lemma NotOpeningTagKinds(text: string, parent: Option<string>, t: nat, position: nat)
    requires t < position <= |text|
    ensures var ctx := OtherTagContext(text, parent, t, position);
      (ctx.kind == TagName || ctx.kind == ClosingTag) && ctx.existingAttributes == {} && ctx.currentAttribute.None?
  {
  }

  /** A name token that stops before the cursor leaves a terminator in the
      typed text. */
  lemma NamedTokenEndsEarly(text: string, t: nat, position: nat)
    requires t + 1 < position <= |text|
    requires TokenEnd(text, t + 1, position) < position
    ensures !DottedOpeningToken(text, t, position)
  {
    assert IsTagNameTerminator(text[TokenEnd(text, t + 1, position)]);
  }

  /** A name token that reaches the cursor gives ElementProperty exactly when
      it holds a '.'. */
  lemma NamedElementProperty(text: string, parent: Option<string>, t: nat, position: nat)
    requires t < position <= |text|
    ensures NamedTagContext(text, parent, t, position, position).kind == ElementProperty <==> '.' in text[t + 1..position]
  {
    var raw := text[t + 1..position];
    IndexOfCharIsFirst(raw, '.', 0);
    var dot := IndexOfChar(raw, '.', 0);
    if dot >= 0 {
      assert raw[dot] == '.';
    }
  }

  /** A name token ended by a terminator before the cursor gives one of the
      attribute kinds. */
  lemma NamedTagContextKinds(text: string, parent: Option<string>, t: nat, tagNameEnd: nat, position: nat)
    requires t < tagNameEnd < position <= |text|
    ensures var k := NamedTagContext(text, parent, t, tagNameEnd, position).kind;
      k == AttributeName || k == AttributeValue
  {
  }

  /** In an ElementProperty context the current tag is the prefix-stripped
      text before the first '.', and the partial input is everything after
      it up to the cursor. */
  lemma ElementPropertyParts(text: string, scanStart: nat, t: nat, position: nat)
    requires t < position <= |text|
    requires TagContext(text, scanStart, t, position).kind == ElementProperty
    ensures var ctx := TagContext(text, scanStart, t, position);
      var d := ctx.partialInputStart - 1;
      t < d < position && text[d] == '.' && '.' !in text[t + 1..d] &&
      ctx.currentTag == Some(StripPrefix(text[t + 1..d])) &&
      ctx.partialInput == Some(text[d + 1..position])
  {
    ElementPropertyExactly(text, scanStart, t, position);
    DottedTokenReachesCursor(text, t, position);
    OpeningTagContext(text, scanStart, t, position);
    NamedElementPropertyParts(text, ParentTagFrom(text, scanStart, t - 1, []), t, position);
  }

  /** A dotted token typed since the '<' is the whole tag name. */
  lemma DottedTokenReachesCursor(text: string, t: nat, position: nat)
    requires t < position <= |text|
    requires DottedOpeningToken(text, t, position)
    ensures TokenEnd(text, t + 1, position) == position
  {
    var e := TokenEnd(text, t + 1, position);
    if e < position {
      assert false;
    }
  }

  lemma NamedElementPropertyParts(text: string, parent: Option<string>, t: nat, position: nat)
    requires t < position <= |text|
    requires NamedTagContext(text, parent, t, position, position).kind == ElementProperty
    ensures var ctx := NamedTagContext(text, parent, t, position, position);
      var d := ctx.partialInputStart - 1;
      t < d < position && text[d] == '.' && '.' !in text[t + 1..d] &&
      ctx.currentTag == Some(StripPrefix(text[t + 1..d])) &&
      ctx.partialInput == Some(text[d + 1..position])
  {
    var afterLt := t + 1;
    var raw := text[afterLt..position];
    var dot := IndexOfChar(raw, '.', 0);
    assert dot >= 0;
    assert NamedTagContext(text, parent, t, position, position) ==
      XmlContext(ElementProperty, Some(StripPrefix(raw[..dot])), None, parent, {},
                 Some(raw[dot + 1..]), afterLt + dot + 1, None);
    FirstDotSplit(text, afterLt, position);
  }

  /** Splitting text[from..to) at its first '.' gives the text before the
      dot and the text after it. */
  lemma FirstDotSplit(text: string, from: nat, to: nat)
    requires from <= to <= |text|
    requires IndexOfChar(text[from..to], '.', 0) >= 0
    ensures var raw := text[from..to];
      var dot := IndexOfChar(raw, '.', 0);
      from + dot < to && text[from + dot] == '.' && '.' !in text[from..from + dot] &&
      raw[..dot] == text[from..from + dot] && raw[dot + 1..] == text[from + dot + 1..to]
  {
    var raw := text[from..to];
    var dot := IndexOfChar(raw, '.', 0);
    IndexOfCharIsFirst(raw, '.', 0);
    assert raw[..dot] == text[from..from + dot];
    assert raw[dot + 1..] == text[from + dot + 1..to];
    assert forall k :: 0 <= k < dot ==> text[from..from + dot][k] == raw[k];
  }

  // ---------------------------------------------------------------------------
  // Attributes
  // ---------------------------------------------------------------------------

  /** Only the attribute contexts carry existing attributes or a current
      attribute, and only AttributeValue names the attribute. */
  lemma AttributesOnlyInAttributeContexts(text: string, position: int)
    ensures var ctx := ContextAt(text, position);
      (ctx.kind != AttributeName && ctx.kind != AttributeValue ==> ctx.existingAttributes == {}) &&
      (ctx.currentAttribute.Some? <==> ctx.kind == AttributeValue)
  {
    if 0 < position <= |text| && !InSpecialConstruct(text, ScanStart(position), position) {
      var t := UnclosedTagOpenFrom(text, ScanStart(position), position - 1);
      if t >= 0 {
        TagContextAttributes(text, ScanStart(position), t, position);
      }
    }
  }

  lemma TagContextAttributes(text: string, scanStart: nat, t: nat, position: nat)
    requires t < position <= |text|
    ensures var ctx := TagContext(text, scanStart, t, position);
      (ctx.kind != AttributeName && ctx.kind != AttributeValue ==> ctx.existingAttributes == {}) &&
      (ctx.currentAttribute.Some? <==> ctx.kind == AttributeValue)
  {
    var parent := ParentTagFrom(text, scanStart, t - 1, []);
    if OpensTag(text, t, position) {
      var tagNameEnd := TokenEnd(text, t + 1, position);
      assert TagContext(text, scanStart, t, position) == NamedTagContext(text, parent, t, tagNameEnd, position);
      NamedTagContextAttributes(text, parent, t, tagNameEnd, position);
    } else {
      assert TagContext(text, scanStart, t, position) == OtherTagContext(text, parent, t, position);
      NotOpeningTagKinds(text, parent, t, position);
    }
  }

  lemma NamedTagContextAttributes(text: string, parent: Option<string>, t: nat, tagNameEnd: nat, position: nat)
    requires t < tagNameEnd <= position <= |text|
    ensures var ctx := NamedTagContext(text, parent, t, tagNameEnd, position);
      (ctx.kind != AttributeName && ctx.kind != AttributeValue ==> ctx.existingAttributes == {}) &&
      (ctx.currentAttribute.Some? <==> ctx.kind == AttributeValue)
  {
    if tagNameEnd < position {
    } else {
    }
  }

  /** The attributes area gives AttributeValue exactly when a quote is open
      at the cursor; its partial input is then everything after that quote,
      which nothing in the partial closes. */
  lemma AttributeValueIsOpenQuote(text: string, parent: Option<string>, t: nat, tagName: string, attrsStart: nat, position: nat)
    requires t < attrsStart <= position <= |text|
    ensures var ctx := AttributeContext(text, parent, tagName, attrsStart, position);
      (ctx.kind == AttributeValue <==> AttrScan(text, attrsStart, position).inQuote) &&
      (ctx.kind == AttributeValue ==>
        var q := ctx.partialInputStart - 1;
        attrsStart <= q < position && IsQuote(text[q]) &&
        ctx.partialInput == Some(text[q + 1..position]) &&
        forall k :: q < k < position ==> text[k] != text[q])
  {
    OpenQuoteAtCursor(text, attrsStart, position);
  }

  /** The AttributeName partial is the longest run of name characters ending
      at the cursor that does not reach before the attributes area, with its
      prefix stripped. */
  lemma AttributeNamePartialIsNameRun(text: string, parent: Option<string>, t: nat, tagName: string, attrsStart: nat, position: nat)
    requires t < attrsStart <= position <= |text|
    requires AttributeContext(text, parent, tagName, attrsStart, position).kind == AttributeName
    ensures var ctx := AttributeContext(text, parent, tagName, attrsStart, position);
      var s := ctx.partialInputStart;
      attrsStart <= s <= position &&
      (forall k :: s <= k < position ==> IsNameChar(text[k])) &&
      (s > attrsStart ==> !IsNameChar(text[s - 1])) &&
      ctx.partialInput == Some(StripPrefix(text[s..position]))
  {
    AttrPartialIsMaximalNameRun(text, attrsStart, position);
  }

  /** The existing attributes are the recorded set of the scan: it holds
      whatever any state on the way held, and every attribute whose quoted
      value the scan sees closed, by its prefix-stripped name. */
  lemma ExistingAttributesAreRecorded(text: string, parent: Option<string>, t: nat, tagName: string, attrsStart: nat, position: nat)
    requires t < attrsStart <= position <= |text|
    ensures AttributeContext(text, parent, tagName, attrsStart, position).existingAttributes ==
      AttrScan(text, attrsStart, position).existingAttrs
    ensures forall i: nat, st :: Passes(text, attrsStart, position, InitialState, i, st) ==>
      st.existingAttrs <= AttributeContext(text, parent, tagName, attrsStart, position).existingAttributes &&
      (ClosesAttribute(text, i, position, st) ==>
        StripPrefix(st.currentAttrName.value) in AttributeContext(text, parent, tagName, attrsStart, position).existingAttributes)
  {
    forall i: nat, st | Passes(text, attrsStart, position, InitialState, i, st)
      ensures st.existingAttrs <= AttrScan(text, attrsStart, position).existingAttrs
      ensures ClosesAttribute(text, i, position, st) ==>
        StripPrefix(st.currentAttrName.value) in AttrScan(text, attrsStart, position).existingAttrs
    {
      PassedAttributeIsRecorded(text, attrsStart, position, i, st);
    }
  }

  /** ... and nothing else: every existing attribute was recorded by a
      closing quote the scan passes. */
  lemma ExistingAttributeWasClosed(text: string, parent: Option<string>, tagName: string, attrsStart: nat, position: nat, x: string)
    returns (i: nat, st: AttrState)
    requires attrsStart <= position <= |text|
    requires x in AttributeContext(text, parent, tagName, attrsStart, position).existingAttributes
    ensures Passes(text, attrsStart, position, InitialState, i, st)
    ensures ClosesAttribute(text, i, position, st) && StripPrefix(st.currentAttrName.value) == x
  {
    i, st := RecordedAttributeWasClosed(text, attrsStart, position, x);
  }

  // ---------------------------------------------------------------------------
  // Parent tag
  // ---------------------------------------------------------------------------

  /** In a tag context the parent tag is searched for before the '<'. */
  lemma TagContextParent(text: string, scanStart: nat, t: nat, position: nat)
    requires t < position <= |text|
    ensures TagContext(text, scanStart, t, position).parentTag == ParentTagFrom(text, scanStart, t - 1, [])
  {
    var parent := ParentTagFrom(text, scanStart, t - 1, []);
    if OpensTag(text, t, position) {
      assert TagContext(text, scanStart, t, position) == NamedTagContext(text, parent, t, TokenEnd(text, t + 1, position), position);
    } else {
      assert TagContext(text, scanStart, t, position) == OtherTagContext(text, parent, t, position);
    }
  }

  /** The parent tag is searched for before the context's own '<' (before
      the cursor in content). */
  lemma ParentSearchedBefore(text: string, position: nat) returns (x: nat)
    requires 0 < position <= |text|
    ensures var ctx := ContextAt(text, position);
      ctx.kind != NoContext ==>
        ScanStart(position) <= x <= position && ctx.parentTag == ParentTagFrom(text, ScanStart(position), x - 1, [])
  {
    ContextAtAttachesPrefix(text, position);
    x := ParentSearchedIn(text, ScanStart(position), position);
  }

  lemma ParentSearchedIn(text: string, lo: nat, position: nat) returns (x: nat)
    requires lo < position <= |text|
    ensures var ctx := ContextIn(text, lo, position);
      lo <= x <= position && (ctx.kind != NoContext || ctx.parentTag.Some? ==> ctx.parentTag == ParentTagFrom(text, lo, x - 1, []))
  {
    x := position;
    if InSpecialConstruct(text, lo, position) {
      assert ContextIn(text, lo, position) == EmptyContext(NoContext);
    } else {
      var t := UnclosedTagOpenFrom(text, lo, position - 1);
      if t >= 0 {
        x := t;
        TagContextDispatch(text, lo, position, t);
        TagContextParent(text, lo, t, position);
      } else {
        assert ContextIn(text, lo, position) == ContentContext(text, lo, position);
      }
    }
  }

  /** A parent tag is the prefix-stripped name of an opening, not
      self-closing, tag that ends before the cursor inside the window. */
  lemma ParentTagIsOpeningTagBefore(text: string, position: nat) returns (o: nat, c: nat)
    requires 0 < position <= |text|
    ensures var ctx := ContextAt(text, position);
      ctx.parentTag.Some? ==>
        ScanStart(position) <= o < c < position && IsOpeningTag(text, o, c) &&
        ctx.parentTag.value == StripPrefix(TagNameAfterOpen(text, o, c)) && ctx.parentTag.value != ""
  {
    ContextAtAttachesPrefix(text, position);
    o, c := ParentTagIsOpeningTagIn(text, ScanStart(position), position);
  }

  lemma ParentTagIsOpeningTagIn(text: string, lo: nat, position: nat) returns (o: nat, c: nat)
    requires lo < position <= |text|
    ensures var ctx := ContextIn(text, lo, position);
      ctx.parentTag.Some? ==>
        lo <= o < c < position && IsOpeningTag(text, o, c) &&
        ctx.parentTag.value == StripPrefix(TagNameAfterOpen(text, o, c)) && ctx.parentTag.value != ""
  {
    o, c := 0, 0;
    var x := ParentSearchedIn(text, lo, position);
    var parent := ContextIn(text, lo, position).parentTag;
    if parent.Some? {
      o, c := ParentTagIsOpeningTag(text, lo, x - 1, []);
    }
  }

  // ---------------------------------------------------------------------------
  // The A2v10 prefix
  // ---------------------------------------------------------------------------

  /** The prefix depends only on text[..min(position, 2000)]. */
  lemma A2v10PrefixReadsOnlyWindow(t1: string, t2: string, position: nat)
    requires 0 < position <= |t1| && position <= |t2|
    requires var w := if position < XmlnsScanLimit then position else XmlnsScanLimit; t1[..w] == t2[..w]
    ensures ContextAt(t1, position).a2v10Prefix == ContextAt(t2, position).a2v10Prefix
  {
    DetectionReadsOnlyWindow(t1, t2, XmlnsWindow(t1, position));
  }

  /** A prefix is reported only for an `xmlns:` declaration of it, lying with
      its quoted value in text[..min(position, 2000)], whose value names the
      A2v10 namespace. */
  lemma A2v10PrefixIsDeclared(text: string, position: nat) returns (x: nat, open: nat, close: nat)
    requires 0 < position <= |text|
    ensures var p := ContextAt(text, position).a2v10Prefix;
      p.Some? ==> close < position && close < XmlnsScanLimit && DeclaresA2v10Prefix(text, XmlnsWindow(text, position), x, p.value, open, close)
  {
    x, open, close := PrefixScanFindsDeclaration(text, XmlnsWindow(text, position), 0);
  }

  /** Conversely, when the first `xmlns` of the document is `xmlns:p`
      assigned a quoted value that names the A2v10 namespace and closes
      before the cursor and within the first 2000 characters, the reported
      prefix is p. */
  lemma A2v10PrefixIsFound(text: string, position: nat, x: nat, p: string, eq: nat, open: nat, close: nat)
    requires 0 < position <= |text|
    requires x == IndexOf(text, "xmlns", 0) && p != ""
    requires XmlnsDeclaration(text, |text|, x, p, eq, open, close) && MentionsA2v10(text[open + 1..close])
    requires close < position && close < XmlnsScanLimit
    ensures ContextAt(text, position).a2v10Prefix == Some(p)
  {
    var end := XmlnsWindow(text, position);
    assert XmlnsDeclaration(text, end, x, p, eq, open, close);
    DeclaredPrefixIsFound(text, end, 0, x, p, eq, open, close);
  }

  // ---------------------------------------------------------------------------
  // A worked example
  // ---------------------------------------------------------------------------

  /** A pattern holding a character the text lacks occurs nowhere in it. */
  lemma AbsentCharNoOccurrence(text: string, pattern: string, i: nat, k: int)
    requires i < |pattern| && pattern[i] !in text
    ensures !OccursAt(text, pattern, k)
  {
    if 0 <= k && k + |pattern| <= |text| {
      assert text[k..k + |pattern|][i] == text[k + i];
    }
  }

  lemma {:induction false} LastIndexOfAbsent(text: string, pattern: string, i: nat, k: int, limit: nat)
    requires i < |pattern| && pattern[i] !in text
    ensures LastIndexOf(text, pattern, k, limit) == -1
    decreases k + 1 - limit
  {
    if k >= limit {
      AbsentCharNoOccurrence(text, pattern, i, k);
      LastIndexOfAbsent(text, pattern, i, k - 1, limit);
    }
  }

  lemma {:induction false} IndexOfAbsent(text: string, pattern: string, i: nat, from: nat)
    requires i < |pattern| && pattern[i] !in text
    ensures IndexOf(text, pattern, from) == -1
    decreases |text| - from
  {
    if from + |pattern| <= |text| {
      AbsentCharNoOccurrence(text, pattern, i, from);
      IndexOfAbsent(text, pattern, i, from + 1);
    }
  }

  /** On `<Page><Butt` with the cursor at the end the user is typing the tag
      name "Butt" (from index 7) inside Page. */
  lemma TypingChildTagName(text: string, position: int)
    requires text == "<Page><Butt" && position == 11
    ensures ContextAt(text, position) == XmlContext(TagName, None, None, Some("Page"), {}, Some("Butt"), 7, None)
  {
    var ctx := XmlContext(TagName, None, None, Some("Page"), {}, Some("Butt"), 7, None);
    assert ContextIn(text, 0, 11) == ctx by {
      ExampleNotSpecial(text);
      ExampleTagOpen(text);
      TagContextDispatch(text, 0, 11, 6);
      ExampleTagName(text);
      ExampleParent(text);
    }
    assert PrefixScan(text, 11, 0) == None by {
      ExampleNoPrefix(text);
    }
    ContextAtAttachesPrefix(text, 11);
  }

  lemma ExampleNotSpecial(text: string)
    requires text == "<Page><Butt"
    ensures !InSpecialConstruct(text, 0, 11)
  {
    assert '!' !in text && '?' !in text;
    LastIndexOfAbsent(text, "<!--", 1, 7, 0);
    LastIndexOfAbsent(text, "<![CDATA[", 1, 2, 0);
    LastIndexOfAbsent(text, "<?", 1, 9, 0);
  }

  lemma ExampleTagOpen(text: string)
    requires text == "<Page><Butt"
    ensures UnclosedTagOpenFrom(text, 0, 10) == 6
  {
    assert text[6] == '<' && text[7] == 'B' && text[8] == 'u' && text[9] == 't' && text[10] == 't';
    assert UnclosedTagOpenFrom(text, 0, 6) == 6;
    assert UnclosedTagOpenFrom(text, 0, 7) == 6;
    assert UnclosedTagOpenFrom(text, 0, 8) == 6;
    assert UnclosedTagOpenFrom(text, 0, 9) == 6;
  }

  lemma ExampleTagName(text: string)
    requires text == "<Page><Butt"
    ensures TagContext(text, 0, 6, 11) == XmlContext(TagName, None, None, ParentTagFrom(text, 0, 5, []), {}, Some("Butt"), 7, None)
  {
    ExampleTokenEnd(text);
    assert TagContext(text, 0, 6, 11) == NamedTagContext(text, ParentTagFrom(text, 0, 5, []), 6, 11, 11);
    ExampleNamedTag(text, ParentTagFrom(text, 0, 5, []));
  }

  lemma ExampleTokenEnd(text: string)
    requires text == "<Page><Butt"
    ensures text[7] == 'B' && TokenEnd(text, 7, 11) == 11
  {
    assert TokenEnd(text, 10, 11) == 11;
    assert TokenEnd(text, 9, 11) == 11;
    assert TokenEnd(text, 8, 11) == 11;
  }

  lemma ExampleNamedTag(text: string, parent: Option<string>)
    requires text == "<Page><Butt"
    ensures NamedTagContext(text, parent, 6, 11, 11) == XmlContext(TagName, None, None, parent, {}, Some("Butt"), 7, None)
  {
    assert text[7..11] == "Butt";
    assert IndexOfChar("Butt", '.', 0) == -1;
    assert StripPrefix("Butt") == "Butt" by {
      assert IndexOfChar("Butt", ':', 0) == -1;
    }
  }

  lemma ExampleParent(text: string)
    requires text == "<Page><Butt"
    ensures ParentTagFrom(text, 0, 5, []) == Some("Page")
  {
    assert LastCharAtOrBefore(text, '>', 0, 5) == 5;
    assert TagOpenFrom(text, 0, 4) == 0;
    assert TokenEnd(text, 1, 5) == 5;
    assert text[1..5] == "Page";
    assert IndexOfChar("Page", '.', 0) == -1;
    assert IndexOfChar("Page", ':', 0) == -1;
    assert StepAtClose(text, 0, 5, []) == Done(Some("Page"));
  }

  lemma ExampleNoPrefix(text: string)
    requires text == "<Page><Butt"
    ensures PrefixScan(text, 11, 0) == None
  {
    assert 'x' !in text;
    IndexOfAbsent(text, "xmlns", 0, 0);
  }

  /** After a quoted attribute value has closed, the tag's context records
      the attribute: in `<T a="v" ` the cursor is on a new attribute name of
      T, and a is an existing attribute. */
  lemma ClosedAttributeExample(text: string, position: nat)
    requires text == "<T a=\"v\" " && position == 9
    ensures ContextAt(text, position) == XmlContext(AttributeName, Some("T"), None, None, {"a"}, Some(""), 9, None)
  {
    var ctx := XmlContext(AttributeName, Some("T"), None, None, {"a"}, Some(""), 9, None);
    assert ContextIn(text, 0, 9) == ctx by {
      AttrExampleNotSpecial(text);
      AttrExampleTagOpen(text);
      TagContextDispatch(text, 0, 9, 0);
      AttrExampleTagName(text);
      AttrExampleAttributes(text);
    }
    assert PrefixScan(text, 9, 0) == None by {
      assert 'x' !in text;
      IndexOfAbsent(text, "xmlns", 0, 0);
    }
    ContextAtAttachesPrefix(text, 9);
  }

  lemma AttrExampleNotSpecial(text: string)
    requires text == "<T a=\"v\" "
    ensures !InSpecialConstruct(text, 0, 9)
  {
    assert '!' !in text && '?' !in text;
    LastIndexOfAbsent(text, "<!--", 1, 5, 0);
    LastIndexOfAbsent(text, "<![CDATA[", 1, 0, 0);
    LastIndexOfAbsent(text, "<?", 1, 7, 0);
  }

  lemma AttrExampleTagOpen(text: string)
    requires text == "<T a=\"v\" "
    ensures UnclosedTagOpenFrom(text, 0, 8) == 0
  {
    assert UnclosedTagOpenFrom(text, 0, 0) == 0;
    assert UnclosedTagOpenFrom(text, 0, 1) == 0;
    assert UnclosedTagOpenFrom(text, 0, 2) == 0;
    assert UnclosedTagOpenFrom(text, 0, 3) == 0;
    assert UnclosedTagOpenFrom(text, 0, 4) == 0;
    assert UnclosedTagOpenFrom(text, 0, 5) == 0;
    assert UnclosedTagOpenFrom(text, 0, 6) == 0;
    assert UnclosedTagOpenFrom(text, 0, 7) == 0;
  }

  lemma AttrExampleTagName(text: string)
    requires text == "<T a=\"v\" "
    ensures TagContext(text, 0, 0, 9) == AttributeContext(text, None, "T", 2, 9)
  {
    assert TokenEnd(text, 2, 9) == 2;
    assert TokenEnd(text, 1, 9) == 2;
    assert TagContext(text, 0, 0, 9) == NamedTagContext(text, None, 0, 2, 9);
    assert text[1..2] == "T";
    assert IndexOfChar("T", '.', 0) == -1;
    assert IndexOfChar("T", ':', 0) == -1;
  }

  /** The attribute scan of the example, one step at a time. */
  lemma AttrExampleAttributes(text: string)
    requires text == "<T a=\"v\" "
    ensures AttributeContext(text, None, "T", 2, 9) == XmlContext(AttributeName, Some("T"), None, None, {"a"}, Some(""), 9, None)
  {
    var s1 := InitialState.(currentAttrName := Some("a"));
    var s2 := s1.(afterEquals := true);
    var s3 := s2.(inQuote := true, quoteChar := '"', quoteStart := 5);
    var s4 := AttrState(None, false, '"', 5, false, {"a"});
    assert NameRunEnd(text, 4, 9) == 4;
    assert NameRunEnd(text, 3, 9) == 4;
    assert text[3..4] == "a";
    assert StripPrefix("a") == "a" by {
      assert IndexOfChar("a", ':', 0) == -1;
    }
    assert AttrStep(text, 8, 9, s4) == (9, s4);
    assert text[7] == s3.quoteChar && s3.existingAttrs + {StripPrefix(s3.currentAttrName.value)} == {"a"};
    assert AttrStep(text, 7, 9, s3) == (8, s4);
    assert AttrStep(text, 6, 9, s3) == (7, s3);
    assert AttrStep(text, 5, 9, s2) == (6, s3);
    assert AttrStep(text, 4, 9, s1) == (5, s2);
    assert AttrStep(text, 3, 9, InitialState) == (4, s1);
    assert AttrStep(text, 2, 9, InitialState) == (3, InitialState);
    assert AttrScanFrom(text, 7, 9, s3) == s4;
    assert AttrScanFrom(text, 5, 9, s2) == s4;
    assert AttrScan(text, 2, 9) == s4;
    assert AttrPartialStart(text, 2, 9) == 9;
    assert StripPrefix("") == "";
  }
}
