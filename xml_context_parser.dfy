/**
 * The cursor-context classifier (Parser/XmlContextParser.cs:16-365): given
 * the document text and a cursor offset, what the cursor is inside.
 *
 * Each operation is a method written as the source writes it and proved equal
 * to a specification function (ContextAt and the functions below it); the
 * module ContextProperties states what those functions mean.
 */
module XmlContextParser {
  import opened Wrappers
  import opened XmlText
  import opened XmlContextModel
  import opened TagScan
  import opened AttributeScan
  import opened XmlnsScan

  /** How far back from the cursor the scanners look. */
  const MaxScanBack := 10000
  /** How much of the document start is searched for xmlns declarations. */
  const XmlnsScanLimit := 2000

  /** Math.Max(0, position - MaxScanBack). */
  function ScanStart(position: nat): (r: nat)
    ensures r <= position && (position <= MaxScanBack ==> r == 0)
    ensures position > MaxScanBack ==> position - r == MaxScanBack
  {
    if position > MaxScanBack then position - MaxScanBack else 0
  }

  /** Math.Min(position, XmlnsScanLimit), capped again by the text length
      inside DetectA2v10Prefix. */
  function XmlnsWindow(text: string, position: nat): (r: nat)
    ensures r <= |text| && r <= position && r <= XmlnsScanLimit
    ensures r == position || r == |text| || r == XmlnsScanLimit
  {
    var limit := if position < XmlnsScanLimit then position else XmlnsScanLimit;
    if |text| < limit then |text| else limit
  }

  // ---------------------------------------------------------------------------
  // Comment, CDATA section, processing instruction (lines 87-133)
  // ---------------------------------------------------------------------------

  /** The nearest `<!--` in the window is not closed by a `-->` starting
      before the cursor. */
  predicate CommentUnclosed(text: string, scanStart: nat, position: int) {
    var commentOpen := FindBackward(text, "<!--", position - 1, scanStart);
    commentOpen >= 0 &&
    var commentClose := FindForward(text, "-->", commentOpen + 4);
    commentClose < 0 || commentClose >= position
  }

  /** The same for the nearest `<![CDATA[` and `]]>`, when it lies after
      commentOpen. */
  predicate CDataUnclosed(text: string, scanStart: nat, position: int, commentOpen: int) {
    var cdataOpen := FindBackward(text, "<![CDATA[", position - 1, scanStart);
    cdataOpen >= 0 && (commentOpen < 0 || cdataOpen > commentOpen) &&
    var cdataClose := FindForward(text, "]]>", cdataOpen + 9);
    cdataClose < 0 || cdataClose >= position
  }

  /** The same for the nearest `<?` and `?>`, when it lies after commentOpen
      and after cdataOpen, the nearest `<![CDATA[`. */
  predicate PIUnclosed(text: string, scanStart: nat, position: int, commentOpen: int, cdataOpen: int) {
    var piOpen := FindBackward(text, "<?", position - 1, scanStart);
    piOpen >= 0 &&
    (commentOpen < 0 || piOpen > commentOpen) &&
    (cdataOpen < 0 || piOpen > cdataOpen) &&
    piOpen + 1 < |text| && text[piOpen + 1] == '?' &&
    var piClose := FindForward(text, "?>", piOpen + 2);
    piClose < 0 || piClose >= position
  }

  /** CheckSpecialContexts returns a context (of kind None) exactly when this
      holds. Whether no comment opener was found or the one found was closed,
      the source has set its commentOpen to -1 before the CDATA and PI checks,
      so they see -1. */
  predicate InSpecialConstruct(text: string, scanStart: nat, position: int) {
    CommentUnclosed(text, scanStart, position) ||
    CDataUnclosed(text, scanStart, position, -1) ||
    PIUnclosed(text, scanStart, position, -1, FindBackward(text, "<![CDATA[", position - 1, scanStart))
  }

  // ---------------------------------------------------------------------------
  // The contexts the builders produce (lines 139-365)
  // ---------------------------------------------------------------------------

  /** BuildContentContext: between tags. */
  function ContentContext(text: string, scanStart: nat, position: nat): XmlContext
    requires position <= |text|
  {
    XmlContext(Content, None, None, ParentTagFrom(text, scanStart, position - 1, []), {}, Some(""), position, None)
  }

  /** BuildAttributeContext: in the attributes area of the tag whose '<' is
      at tagOpenPos, its attributes starting at attrsStart. */
  function AttributeContext(text: string, parent: Option<string>, tagName: string, attrsStart: nat, position: nat): XmlContext
    requires attrsStart <= position <= |text|
  {
    var st := AttrScan(text, attrsStart, position);
    if st.inQuote then
      OpenQuoteInRegion(text, attrsStart, position);
      var attr := StripPrefix(st.currentAttrName.GetOr(""));
      XmlContext(AttributeValue, Some(tagName), Some(attr), parent, st.existingAttrs,
                 Some(text[st.quoteStart + 1..position]), st.quoteStart + 1, None)
    else
      var start := AttrPartialStart(text, attrsStart, position);
      XmlContext(AttributeName, Some(tagName), None, parent, st.existingAttrs,
                 Some(StripPrefix(text[start..position])), start, None)
  }

  /** The '<' at tagOpenPos starts an opening tag: a character other than
      '/', '!' and '?' follows it before the cursor. */
  predicate OpensTag(text: string, tagOpenPos: nat, position: nat)
    requires tagOpenPos < position <= |text|
  {
    tagOpenPos + 1 < position && text[tagOpenPos + 1] != '/' && text[tagOpenPos + 1] != '!' && text[tagOpenPos + 1] != '?'
  }

  /** BuildTagContext when the '<' does not open a tag: nothing typed after
      it yet, a closing tag, or the start of a comment, CDATA section or
      processing instruction. */
  function OtherTagContext(text: string, parent: Option<string>, tagOpenPos: nat, position: nat): XmlContext
    requires tagOpenPos < position <= |text|
  {
    var afterLt := tagOpenPos + 1;
    if afterLt >= position then
      XmlContext(TagName, None, None, parent, {}, Some(""), afterLt, None)
    else if text[afterLt] == '/' then
      XmlContext(ClosingTag, None, None, parent, {}, Some(StripPrefix(ExtractIdentifier(text, afterLt + 1, position))), afterLt + 1, None)
    else
      XmlContext(TagName, None, None, parent, {}, Some(text[afterLt..position]), afterLt, None)
  }

  /** BuildTagContext: after the unclosed '<' at tagOpenPos. */
  function TagContext(text: string, scanStart: nat, tagOpenPos: nat, position: nat): XmlContext
    requires tagOpenPos < position <= |text|
  {
    var parent := ParentTagFrom(text, scanStart, tagOpenPos - 1, []);
    if OpensTag(text, tagOpenPos, position) then
      NamedTagContext(text, parent, tagOpenPos, TokenEnd(text, tagOpenPos + 1, position), position)
    else
      OtherTagContext(text, parent, tagOpenPos, position)
  }

  /** The rest of BuildTagContext for an opening tag, once its name token
      text[tagOpenPos + 1..tagNameEnd) is read. */
  function NamedTagContext(text: string, parent: Option<string>, tagOpenPos: nat, tagNameEnd: nat, position: nat): XmlContext
    requires tagOpenPos < tagNameEnd <= position <= |text|
  {
    var afterLt := tagOpenPos + 1;
    var raw := text[afterLt..tagNameEnd];
    var dot := IndexOfChar(raw, '.', 0);
    if dot >= 0 && tagNameEnd >= position then
      XmlContext(ElementProperty, Some(StripPrefix(raw[..dot])), None, parent, {}, Some(raw[dot + 1..]), afterLt + dot + 1, None)
    else if tagNameEnd >= position then
      XmlContext(TagName, None, None, parent, {}, Some(StripPrefix(raw)), afterLt, None)
    else
      AttributeContext(text, parent, StripPrefix(raw), tagNameEnd, position)
  }

  /** DetermineContext: special constructs first, then the nearest unclosed
      '<' decides between content and a tag. */
  function ContextIn(text: string, scanStart: nat, position: nat): XmlContext
    requires scanStart < position <= |text|
  {
    if InSpecialConstruct(text, scanStart, position) then EmptyContext(NoContext)
    else
      var tagOpenPos := UnclosedTagOpenFrom(text, scanStart, position - 1);
      if tagOpenPos < 0 then ContentContext(text, scanStart, position)
      else TagContext(text, scanStart, tagOpenPos, position)
  }

  /** Parse: the context at the cursor, with the A2v10 prefix of the
      document attached. */
  function ContextAt(text: string, position: int): XmlContext {
    if |text| == 0 || position < 0 || position > |text| then EmptyContext(NoContext)
    else if position == 0 then EmptyContext(Content)
    else
      var ctx := ContextIn(text, ScanStart(position), position);
      ctx.(a2v10Prefix := PrefixScan(text, XmlnsWindow(text, position), 0))
  }

  // ---------------------------------------------------------------------------
  // The operations
  // ---------------------------------------------------------------------------

  method Parse(text: string, position: int) returns (ctx: XmlContext)
    ensures ctx == ContextAt(text, position)
  {
    if |text| == 0 || position < 0 || position > |text| {
      return EmptyContext(NoContext);
    }
    if position == 0 {
      return EmptyContext(Content);
    }
    var scanStart := if position - MaxScanBack > 0 then position - MaxScanBack else 0;
    var result := DetermineContext(text, scanStart, position);
    var xmlnsLimit := if position < XmlnsScanLimit then position else XmlnsScanLimit;
    var prefix := DetectA2v10Prefix(text, xmlnsLimit);
    ctx := result.(a2v10Prefix := prefix);
  }

  method DetermineContext(text: string, scanStart: nat, position: nat) returns (ctx: XmlContext)
    requires scanStart < position <= |text|
    ensures ctx == ContextIn(text, scanStart, position)
  {
    var special := CheckSpecialContexts(text, scanStart, position);
    if special.Some? {
      return special.value;
    }
    var tagOpenPos := FindNearestUnclosedTagOpen(text, scanStart, position);
    if tagOpenPos < 0 {
      ctx := BuildContentContext(text, scanStart, position);
      return;
    }
    ctx := BuildTagContext(text, scanStart, tagOpenPos, position);
  }

  method CheckSpecialContexts(text: string, scanStart: nat, position: nat) returns (r: Option<XmlContext>)
    ensures r.Some? <==> InSpecialConstruct(text, scanStart, position)
    ensures r.Some? ==> r.value == EmptyContext(NoContext)
  {
    var searchFrom := position - 1;

    var commentOpen, unclosed := CheckComment(text, scanStart, searchFrom, position);
    if unclosed {
      return Some(EmptyContext(NoContext));
    }
    if commentOpen >= 0 {
      // The comment is closed before the cursor: forget it.
      commentOpen := -1;
    }

    var cdataOpen;
    cdataOpen, unclosed := CheckCData(text, scanStart, searchFrom, position, commentOpen);
    if unclosed {
      return Some(EmptyContext(NoContext));
    }

    unclosed := CheckProcessingInstruction(text, scanStart, searchFrom, position, commentOpen, cdataOpen);
    if unclosed {
      return Some(EmptyContext(NoContext));
    }
    return None;
  }

  method CheckComment(text: string, scanStart: nat, searchFrom: int, position: nat) returns (commentOpen: int, unclosed: bool)
    requires searchFrom == position - 1
    ensures commentOpen == FindBackward(text, "<!--", searchFrom, scanStart)
    ensures unclosed == CommentUnclosed(text, scanStart, position)
  {
    commentOpen := FindBackward(text, "<!--", searchFrom, scanStart);
    unclosed := false;
    if commentOpen >= 0 {
      var commentClose := FindForward(text, "-->", commentOpen + 4);
      if commentClose < 0 || commentClose >= position {
        unclosed := true;
      }
    }
  }

  method CheckCData(text: string, scanStart: nat, searchFrom: int, position: nat, commentOpen: int) returns (cdataOpen: int, unclosed: bool)
    requires searchFrom == position - 1
    ensures cdataOpen == FindBackward(text, "<![CDATA[", searchFrom, scanStart)
    ensures unclosed == CDataUnclosed(text, scanStart, position, commentOpen)
  {
    cdataOpen := FindBackward(text, "<![CDATA[", searchFrom, scanStart);
    unclosed := false;
    if cdataOpen >= 0 && (commentOpen < 0 || cdataOpen > commentOpen) {
      var cdataClose := FindForward(text, "]]>", cdataOpen + 9);
      if cdataClose < 0 || cdataClose >= position {
        unclosed := true;
      }
    }
  }

  method CheckProcessingInstruction(text: string, scanStart: nat, searchFrom: int, position: nat, commentOpen: int, cdataOpen: int)
    returns (unclosed: bool)
    requires searchFrom == position - 1
    ensures unclosed == PIUnclosed(text, scanStart, position, commentOpen, cdataOpen)
  {
    unclosed := false;
    var piOpen := FindBackward(text, "<?", searchFrom, scanStart);
    if piOpen >= 0 && (commentOpen < 0 || piOpen > commentOpen) && (cdataOpen < 0 || piOpen > cdataOpen) {
      // Make sure this is not part of "<!--".
      if piOpen + 1 < |text| && text[piOpen + 1] == '?' {
        var piClose := FindForward(text, "?>", piOpen + 2);
        if piClose < 0 || piClose >= position {
          unclosed := true;
        }
      }
    }
  }

  method BuildContentContext(text: string, scanStart: nat, position: nat) returns (ctx: XmlContext)
    requires scanStart <= position <= |text|
    ensures ctx == ContentContext(text, scanStart, position)
  {
    var parent := FindParentTag(text, scanStart, position);
    ctx := XmlContext(Content, None, None, parent, {}, Some(""), position, None);
  }

  method BuildTagContext(text: string, scanStart: nat, tagOpenPos: nat, position: nat) returns (ctx: XmlContext)
    requires scanStart <= tagOpenPos < position <= |text|
    ensures ctx == TagContext(text, scanStart, tagOpenPos, position)
  {
    var afterLt := tagOpenPos + 1;
    if afterLt >= position {
      var parent := FindParentTag(text, scanStart, tagOpenPos);
      return XmlContext(TagName, None, None, parent, {}, Some(""), afterLt, None);
    }
    var firstChar := text[afterLt];
    if firstChar == '/' {
      var partial := ExtractIdentifier(text, afterLt + 1, position);
      var parent := FindParentTag(text, scanStart, tagOpenPos);
      return XmlContext(ClosingTag, None, None, parent, {}, Some(StripPrefix(partial)), afterLt + 1, None);
    }
    if firstChar == '!' || firstChar == '?' {
      var partial := text[afterLt..position];
      var parent := FindParentTag(text, scanStart, tagOpenPos);
      return XmlContext(TagName, None, None, parent, {}, Some(partial), afterLt, None);
    }
    var tagNameEnd := ScanTokenEnd(text, afterLt, position);
    var tagNameRaw := text[afterLt..tagNameEnd];
    ctx := BuildNamedTagContext(text, scanStart, tagOpenPos, tagNameRaw, tagNameEnd, position);
  }

  /** The rest of BuildTagContext once the tag-name token is read. */
  method BuildNamedTagContext(text: string, scanStart: nat, tagOpenPos: nat, tagNameRaw: string, tagNameEnd: nat, position: nat)
    returns (ctx: XmlContext)
    requires scanStart <= tagOpenPos < tagNameEnd <= position <= |text|
    requires tagNameRaw == text[tagOpenPos + 1..tagNameEnd]
    ensures ctx == NamedTagContext(text, ParentTagFrom(text, scanStart, tagOpenPos - 1, []), tagOpenPos, tagNameEnd, position)
  {
    var afterLt := tagOpenPos + 1;
    var dotPos := IndexOfChar(tagNameRaw, '.', 0);
    if dotPos >= 0 && tagNameEnd >= position {
      var beforeDot := tagNameRaw[..dotPos];
      var afterDot := tagNameRaw[dotPos + 1..];
      var parent := FindParentTag(text, scanStart, tagOpenPos);
      return XmlContext(ElementProperty, Some(StripPrefix(beforeDot)), None, parent, {}, Some(afterDot), afterLt + dotPos + 1, None);
    }
    var tagName := StripPrefix(tagNameRaw);
    if tagNameEnd >= position {
      var parent := FindParentTag(text, scanStart, tagOpenPos);
      return XmlContext(TagName, None, None, parent, {}, Some(tagName), afterLt, None);
    }
    assert NamedTagContext(text, ParentTagFrom(text, scanStart, tagOpenPos - 1, []), tagOpenPos, tagNameEnd, position) ==
      AttributeContext(text, ParentTagFrom(text, scanStart, tagOpenPos - 1, []), tagName, tagNameEnd, position);
    ctx := BuildAttributeContext(text, scanStart, tagOpenPos, tagName, tagNameEnd, position);
  }

  method BuildAttributeContext(text: string, scanStart: nat, tagOpenPos: nat, tagName: string, attrsStart: nat, position: nat)
    returns (ctx: XmlContext)
    requires scanStart <= tagOpenPos < attrsStart <= position <= |text|
    ensures ctx == AttributeContext(text, ParentTagFrom(text, scanStart, tagOpenPos - 1, []), tagName, attrsStart, position)
  {
    var st := ScanAttributes(text, attrsStart, position);
    if st.inQuote {
      OpenQuoteInRegion(text, attrsStart, position);
      var partial := text[st.quoteStart + 1..position];
      var attr := StripPrefix(if st.currentAttrName.Some? then st.currentAttrName.value else "");
      var parent := FindParentTag(text, scanStart, tagOpenPos);
      return XmlContext(AttributeValue, Some(tagName), Some(attr), parent, st.existingAttrs, Some(partial), st.quoteStart + 1, None);
    }
    var attrPartial := "";
    var attrPartialStart := position;
    if position > attrsStart {
      var back := ScanNameBackward(text, attrsStart, position);
      if back < position {
        attrPartial := text[back..position];
        attrPartialStart := back;
      }
    }
    var parent := FindParentTag(text, scanStart, tagOpenPos);
    ctx := XmlContext(AttributeName, Some(tagName), None, parent, st.existingAttrs, Some(StripPrefix(attrPartial)), attrPartialStart, None);
  }
}
