# A2v10 XAML autocomplete: context parser and schema catalogue

This project is a Dafny model of the core of the A2v10 XAML autocomplete
extension. It models two parts and proves properties of both.

**The context parser** (`XmlContextParser`). Given the text of a XAML
document and a cursor position, it decides what the user is typing:
- a tag name;
- a closing tag;
- an attribute name or an attribute value;
- an element property (`<Tag.Property`);
- element content;
- or nothing, inside a comment, CDATA section or processing instruction.

It also returns:
- the tag the cursor is in;
- the attributes already written on that tag;
- the nearest unclosed parent tag, found with a tag stack;
- the partial input and where it starts;
- the namespace prefix under which the document imports the A2v10 namespace.

**The schema catalogue** (`XamlSchema`).
- It is built once from a raw deserialised model.
- If loading fails for any reason, it is a small fallback schema instead.
- It is queried for allowed child tags, enum members, attribute names and
  element-property names.

How the model is written:
- Every scanning loop of the source is a `method` with that loop and its
  invariants. Each method is proved equal to a recursive specification
  function: `Parse` ensures `ctx == ContextAt(text, position)`.
- The lemmas state what those functions mean:
  - the nearest angle bracket decides content against tag;
  - an unclosed comment or CDATA opener inside the scan window (the 10000
    characters before the cursor) gives no context;
  - the partial input is the text typed just before the cursor;
  - a parent tag is the name of a real opening tag before the cursor, and
    the tag-stack scan skips closed child tags, comments, CDATA sections and
    processing instructions;
  - the existing attributes are exactly the prefix-stripped names of the
    attributes whose quoted value the scan saw close;
  - a reported prefix is declared by an `xmlns:` attribute whose value names
    the A2v10 namespace;
  - the prefix depends only on the first 2000 characters.
- The schema's `foreach` loops over a dictionary are loops over the keys of a
  `map`, taken in any order. An exception thrown by a null entry is a `None`
  result.
- `AllTagNames` is proved to be the unique ordinal sorting of the element
  tags.

The code is followed wherever it differs from the documented intent:
- A closed CDATA section is not cleared before the processing-instruction
  check. An unclosed `<?` is therefore ignored when any later `<![CDATA[`
  opener lies in the window (`ContextProperties.UnclosedPIIsSpecial`).
- The comment-opener condition in the CDATA and processing-instruction checks
  is dead code. Those checks always see -1 there.
- A bare attribute name followed by whitespace is forgotten. So in
  `Name = "x"`, with a space before `=`, the name is not recorded
  (`AttributeScan.BareNameIsDropped`).
- Quotes are not skipped when looking for the nearest unclosed `<`.

`XmlContextType.None` is called `NoContext` here. A C# reference that may be
null is an `Option`. An `ImmutableDictionary` is a `map`, and an
`ImmutableArray<string>` is a `seq<string>`.

## Model

| member | source | states |
|---|---|---|
| XmlText.IndexOf | Parser/XmlContextParser.cs:560 | the result is -1 or an index at or after `from` where the pattern occurs |
| XmlText.IndexOfIsFirst | Parser/XmlContextParser.cs:560 | a found occurrence is the first one at or after `from`; -1 means there is none |
| XmlText.LastIndexOf | Parser/XmlContextParser.cs:553 | the result is -1 or an occurrence starting in [limit, k] |
| XmlText.LastIndexOfIsLast | Parser/XmlContextParser.cs:553 | a found occurrence is the last one in the range; -1 means there is none |
| XmlText.IndexOfChar | Parser/XmlContextParser.cs:524 | the result is -1 or an index at or after `from` holding the character |
| XmlText.IndexOfCharIsFirst | Parser/XmlContextParser.cs:524 | the found index is the first one holding the character |
| XmlText.LastCharAtOrBefore | Parser/XmlContextParser.cs:386-387 | the result is lo - 1 or an index in [lo, i] holding the character |
| XmlText.LastCharAtOrBeforeIsLast | Parser/XmlContextParser.cs:386-387 | nothing between the result and i holds the character |
| XmlText.FindBackward | Parser/XmlContextParser.cs:545-554 | -1 when `from` is outside [limit, \|text\|); otherwise -1 or an occurrence lying wholly inside text[limit..from] |
| XmlText.FindBackwardIsLast | Parser/XmlContextParser.cs:545-554 | the found occurrence is the one nearest to `from`, and -1 means there is none in the window |
| XmlText.FindBackwardFinds | Parser/XmlContextParser.cs:545-554 | an occurrence wholly inside the window with no later one in it is exactly the one found |
| XmlText.FindForward | Parser/XmlContextParser.cs:556-561 | -1 when `from` is outside [0, \|text\|); otherwise the first occurrence at or after `from` |
| XmlText.FindForwardIsFirst | Parser/XmlContextParser.cs:556-561 | no occurrence lies between `from` and the one found |
| XmlText.NameRunEnd | Parser/XmlContextParser.cs:492-493 | the end of the run of name characters lies in [from, end] and stops at a non-name character or at `end` |
| XmlText.NameRunIsNameChars | Parser/XmlContextParser.cs:492-493 | every character of the run is a name character |
| XmlText.ReadNameRun | Parser/XmlContextParser.cs:492-493 | the loop stops where NameRunEnd says |
| XmlText.SkipWhiteSpace | Parser/XmlContextParser.cs:500-501 | the first non-whitespace index at or after `from`, capped by `end` |
| XmlText.SkipWhiteSpaceForward | Parser/XmlContextParser.cs:500-501 | the loop stops where SkipWhiteSpace says |
| XmlText.NameRunStart | Parser/XmlContextParser.cs:329-332 | the start lies in [lo, i + 1], and the character before it, if inside the window, is not a name character |
| XmlText.NameRunStartIsNameChars | Parser/XmlContextParser.cs:329-332 | every character from the start to i is a name character |
| XmlText.StripPrefixDropsFirstPrefix | Parser/XmlContextParser.cs:640-650 | the result is the name without its part up to and including the first ':'; a name without ':' is unchanged |
| XmlText.StripPrefixIsSuffix | Parser/XmlContextParser.cs:640-650 | the stripped name is a suffix of the name |
| XmlText.ExtractIdentifier | Parser/XmlContextParser.cs:632-638 | the text in [from, min(to, \|text\|)), empty when that range is empty |
| XmlText.StripPrefix | Parser/XmlContextParser.cs:640-650 | the name with everything up to and including its first ':' dropped; an empty name, and a name without ':', come back unchanged, and a name whose only ':' is last gives "" (StripPrefixDropsFirstPrefix states this) |
| XmlText.IsWhiteSpace | Parser/XmlContextParser.cs:654 | `char.IsWhiteSpace` on Latin-1: tab to carriage return, space, U+0085 and U+00A0 |
| XmlText.IsLetter | Parser/XmlContextParser.cs:660 | `char.IsLetter` on ASCII letters |
| XmlText.IsLetterOrDigit | Parser/XmlContextParser.cs:665 | `char.IsLetterOrDigit` on ASCII letters and digits |
| XmlText.IsTagNameTerminator | Parser/XmlContextParser.cs:652-656 | whitespace, '>', '/' or a quote ends a tag-name token |
| XmlText.IsNameStartChar | Parser/XmlContextParser.cs:658-661 | a letter or '_' starts an attribute name |
| XmlText.IsNameChar | Parser/XmlContextParser.cs:663-667 | a letter, a digit, '_', '-', '.' or ':' continues a name |
| XmlText.CharClasses | Parser/XmlContextParser.cs:652-667 | how the classes relate: a letter is a letter or digit, a name-start character is a name character, a terminator is never a name character, '=' and '<' are neither, and whitespace is neither a quote nor '=' |
| XmlText.NameRunEndAt | Parser/XmlContextParser.cs:492-493 | a run of name characters followed by a non-name character ends exactly there |
| XmlText.SkipWhiteSpaceAt | Parser/XmlContextParser.cs:500-501 | whitespace followed by a non-whitespace character is skipped exactly up to it |
| XmlText.IndexOfCharAt | Parser/XmlContextParser.cs:524 | the search for a character finds its first occurrence at or after `from` |
| TagScan.UnclosedTagOpenFrom | Parser/XmlContextParser.cs:67-81 | the result is -1 or an index of '<' inside the window |
| TagScan.UnclosedTagOpenIsNearest | Parser/XmlContextParser.cs:67-81 | the '<' found is the nearest angle bracket; -1 means a '>' is nearer or the window holds neither |
| TagScan.FindNearestUnclosedTagOpen | Parser/XmlContextParser.cs:67-81 | the loop returns the nearest unclosed '<' as UnclosedTagOpenFrom defines it |
| TagScan.TagOpenFrom | Parser/XmlContextParser.cs:571-594 | the result is -1 or an index of '<' inside the window |
| TagScan.FindTagOpenBackward | Parser/XmlContextParser.cs:571-594 | the quote-skipping backward loop returns TagOpenFrom |
| TagScan.TagOpenWithoutQuotes | Parser/XmlContextParser.cs:571-594 | over text without quotes, the quote-aware search is the plain backward search for '<' |
| TagScan.UnmatchedQuoteStopsTagOpen | Parser/XmlContextParser.cs:578-586 | a quote with no partner before it in the window makes the search return -1 |
| TagScan.TokenEnd | Parser/XmlContextParser.cs:611-614 | the token ends at the first terminator before the bound, or at the bound |
| TagScan.TokenHasNoTerminator | Parser/XmlContextParser.cs:611-614 | no character of the token is a terminator |
| TagScan.ScanTokenEnd | Parser/XmlContextParser.cs:611-614 | the loop stops where TokenEnd says |
| TagScan.DotCutIsTextRun | Parser/XmlContextParser.cs:601-626 | a token cut at its first '.' is the run of text from the token's start |
| TagScan.TagNameIsTextRun | Parser/XmlContextParser.cs:601-626 | a non-empty tag name is the text starting right after '<' (after "</" for a closing tag) |
| TagScan.TagNameHasNoTerminator | Parser/XmlContextParser.cs:601-626 | a tag name holds no '.' and no terminator |
| TagScan.ExtractTagNameAfterOpen | Parser/XmlContextParser.cs:601-626 | the method returns TagNameAfterOpen: the token after '<' or "</", cut at the first '.' |
| TagScan.StepAtClose | Parser/XmlContextParser.cs:392-421 | a step that goes on resumes strictly before the '>' it handled |
| TagScan.StepAtTag | Parser/XmlContextParser.cs:424-459 | a step that goes on resumes strictly before the '>' it handled |
| TagScan.ScanAtClose | Parser/XmlContextParser.cs:392-459 | one turn of the loop body does what StepAtClose says: skip a comment, CDATA or PI block, or handle a tag |
| TagScan.ScanAtTag | Parser/XmlContextParser.cs:424-459 | a closing tag pushes its name, an opening tag pops a matching top or is the answer, a self-closing tag is skipped |
| TagScan.FindCloseAngleBackward | Parser/XmlContextParser.cs:386-387 | the loop finds the nearest '>' at or before `from` |
| TagScan.FindParentTag | Parser/XmlContextParser.cs:378-463 | the tag-stack loop returns ParentTagFrom, scanning from the position back to the window start with an empty stack |
| TagScan.StepResultShape | Parser/XmlContextParser.cs:424-455 | a step that stops with a name stopped at an opening tag: a '<' not followed by '/' and a '>' not preceded by '/' |
| TagScan.StepResultName | Parser/XmlContextParser.cs:441-455 | the name it stops with is that tag's prefix-stripped, non-empty name |
| TagScan.ParentTagFindsClose | Parser/XmlContextParser.cs:383-390 | a scan that finds a name met a '>' in the window first |
| TagScan.ParentTagIsOpeningTag | Parser/XmlContextParser.cs:378-463 | a parent tag is the non-empty, prefix-stripped name of an opening, non-self-closing tag lying in the window |
| TagScan.OrdinaryTagStep | Parser/XmlContextParser.cs:392-424 | at a '>' that ends no comment, CDATA or PI, the step is the one taken at the '<' the quote-aware search finds |
| TagScan.ClosingTagStep | Parser/XmlContextParser.cs:437-444 | at a closing tag the step pushes its prefix-stripped name, if it has one, and resumes before the '<' |
| TagScan.SelfClosingTagStep | Parser/XmlContextParser.cs:428-457 | at a self-closing tag the step keeps the stack and resumes before the '<' |
| TagScan.OpeningTagStep | Parser/XmlContextParser.cs:445-455 | at an opening tag with a non-empty name the step pops a matching top, or stops with the name |
| TagScan.ClosingTagStepAtClose | Parser/XmlContextParser.cs:392-444 | the closing-tag step, taken at the nearest '>' |
| TagScan.SelfClosingTagStepAtClose | Parser/XmlContextParser.cs:392-457 | the self-closing-tag step, taken at the nearest '>' |
| TagScan.MatchingOpeningTagStepAtClose | Parser/XmlContextParser.cs:445-452 | at the nearest '>', an opening tag named like the top of the stack pops it and the scan resumes before its '<' |
| TagScan.UnmatchedOpeningTagStepAtClose | Parser/XmlContextParser.cs:445-455 | at the nearest '>', an opening tag that does not match the top of the stack stops the scan with its name |
| TagScan.ResumeKeepsResult | Parser/XmlContextParser.cs:383-460 | a step at the nearest '>' that goes on leaves the answer to the scan from where it resumes, with the new stack |
| TagScan.StopGivesResult | Parser/XmlContextParser.cs:383-460 | a step at the nearest '>' that stops gives the scan's answer |
| TagScan.NoTagOpenStep | Parser/XmlContextParser.cs:423-426 | at an ordinary '>' whose '<' the quote-aware search does not find, the step stops with no parent |
| TagScan.NoTagOpenGivesNone | Parser/XmlContextParser.cs:378-463 | when that '>' is the nearest one, the scan's answer is null whatever the stack holds |
| TagScan.TagOpenSkipsPlain | Parser/XmlContextParser.cs:571-594 | over characters that are neither quotes nor '<', the quote-aware search goes on unchanged |
| TagScan.UnmatchedQuoteGivesNone | Parser/XmlContextParser.cs:378-463 | a quote between the nearest ordinary '>' and its '<' with no partner before it in the window makes the parent scan return null, whatever the stack holds |
| TagScan.CommentIsSkipped | Parser/XmlContextParser.cs:397-405 | at a '>' after "--" the scan goes on, with the same stack, just before the nearest `<!--` in the window, or leaves the window when there is none |
| TagScan.CDataIsSkipped | Parser/XmlContextParser.cs:407-415 | at a '>' after "]]" the scan goes on, with the same stack, just before the nearest `<![CDATA[`, or leaves the window |
| TagScan.PIIsSkipped | Parser/XmlContextParser.cs:417-423 | at a '>' after '?' the scan goes on, with the same stack, just before the nearest `<?`, or leaves the window |
| TagScan.ClosingTagPushes | Parser/XmlContextParser.cs:437-444 | scanning down to a closing tag pushes its name: the answer is the scan's from before its '<' with the name pushed |
| TagScan.SelfClosingTagIsSkipped | Parser/XmlContextParser.cs:428-457 | a self-closing tag changes nothing: the answer is the scan's from before its '<' |
| TagScan.UnmatchedOpeningTagIsParent | Parser/XmlContextParser.cs:445-455 | completeness: the nearest opening tag with a non-empty name that does not match the top of the stack is the parent |
| TagScan.StopIsAtOrdinaryTag | Parser/XmlContextParser.cs:392-424 | a step that stops was taken at an ordinary tag, not at the end of a comment, CDATA section or PI |
| TagScan.StopWithNameIsOpening | Parser/XmlContextParser.cs:424-455 | a tag step that stops with a name found a '<' not followed by '/' and a '>' not preceded by '/' |
| TagScan.TagOpenAt | Parser/XmlContextParser.cs:571-594 | with no quote and no '<' after a '<', the quote-aware backward search finds that '<' |
| TagScan.TokenEndAtBound | Parser/XmlContextParser.cs:611-614 | a token with no terminator before the bound ends at the bound |
| TagScan.PlainTagName | Parser/XmlContextParser.cs:601-626 | the name read in `<name>` or `</name>`, for a name of letters, digits and '_', is that name, and the tag is not self-closing |
| TagScan.PlainTagBefore | Parser/XmlContextParser.cs:386-424 | such a tag is an ordinary tag the scan meets first from its '>' |
| TagScan.PlainTagAt | Parser/XmlContextParser.cs:386-424 | both of the above |
| TagScan.PlainClosingTagPushes | Parser/XmlContextParser.cs:437-444 | `</name>` pushes name on an empty stack |
| TagScan.PlainOpeningTagPops | Parser/XmlContextParser.cs:445-452 | `<name>` pops name off the stack [name] |
| TagScan.PlainOpeningTagIsParent | Parser/XmlContextParser.cs:445-455 | `<name>` met with an empty stack is the parent |
| TagScan.OpenedChildSteps | Parser/XmlContextParser.cs:383-460 | from the '>' of `<b>` with b on the stack, b is popped and the `<a>` before it is the parent |
| TagScan.ClosedChildSteps | Parser/XmlContextParser.cs:437-444 | a closing tag `</b>` that ends the text hands the scan on with b pushed |
| TagScan.ClosedChildAt | Parser/XmlContextParser.cs:383-460 | `<a><b></b>` laid out at the end of the text has parent a |
| TagScan.ClosedChildIsSkipped | Parser/XmlContextParser.cs:378-463 | the tag stack at work: at the end of pre + `<a><b></b>`, for any names a and b of letters, digits and '_', the closed child b is skipped and the parent is a |
| TagScan.CommentWithTagFound | Parser/XmlContextParser.cs:397-405 | the `<!--` of a comment `<!-- <b> -->` is the one the skip searches back to |
| TagScan.CommentWithTagSkipped | Parser/XmlContextParser.cs:397-405 | a comment `<!-- <b> -->` ending the text is skipped as a whole, with the stack unchanged |
| TagScan.CommentedChildAt | Parser/XmlContextParser.cs:378-463 | scanning from the end of `<a><!-- <b> -->` laid out in the text, the comment is skipped and a is the parent |
| TagScan.CommentIsNotParent | Parser/XmlContextParser.cs:378-463 | the comment skip at work: at the end of pre + `<a><!-- <b> -->`, for any name a of letters, digits and '_', the `<b>` inside the comment is ignored and the parent is a |
| AttributeScan.AttrStep | Parser/XmlContextParser.cs:240-305 | every turn of the loop advances the index, and never past the cursor |
| AttributeScan.ScanAttributes | Parser/XmlContextParser.cs:231-305 | the forward loop over the attributes area ends in the state AttrScan defines |
| AttributeScan.StepRecordsOnlyAtClosingQuote | Parser/XmlContextParser.cs:244-256 | an attribute is recorded only by a closing quote, and what is recorded is the prefix-stripped name of that quote's attribute |
| AttributeScan.ClosingQuoteRecordsName | Parser/XmlContextParser.cs:244-256 | the quote that closes a named attribute's value adds its prefix-stripped name to the set, ends the quoted value and forgets the name |
| AttributeScan.PassesKeepsScan | Parser/XmlContextParser.cs:240-305 | a scan that passes a state ends where the scan from that state ends |
| AttributeScan.ClosedAttributeIsRecorded | Parser/XmlContextParser.cs:240-305 | an attribute whose closing quote the scan meets is in the set at the cursor |
| AttributeScan.PassedAttributeIsRecorded | Parser/XmlContextParser.cs:231-305 | the set at the cursor holds everything any state on the way held, and every attribute whose quoted value the scan saw close |
| AttributeScan.RecordedFromClosingQuote | Parser/XmlContextParser.cs:240-305 | a name recorded from some state on was recorded by a closing quote the scan passes, as that attribute's prefix-stripped name |
| AttributeScan.RecordedAttributeWasClosed | Parser/XmlContextParser.cs:231-305 | every name in the set at the cursor is the prefix-stripped name of an attribute whose closing quote the scan passed |
| AttributeScan.BareNameIsDropped | Parser/XmlContextParser.cs:274-285 | a name followed by whitespace before any '=' is forgotten without being recorded |
| AttributeScan.ScanKeepsRecorded | Parser/XmlContextParser.cs:240-305 | the set of recorded attributes only grows |
| AttributeScan.StepKeepsOpenQuoteInv | Parser/XmlContextParser.cs:244-265 | one step keeps the open-quote invariant: quoteStart holds the open quote and nothing after it closes it |
| AttributeScan.ScanKeepsOpenQuoteInv | Parser/XmlContextParser.cs:240-305 | the whole scan keeps the open-quote invariant |
| AttributeScan.OpenQuoteAtCursor | Parser/XmlContextParser.cs:308-322 | at the cursor, an open quote lies in the attributes area and no later character closes it |
| AttributeScan.OpenQuoteInRegion | Parser/XmlContextParser.cs:308-322 | an open quote lies in the attributes area, before the cursor |
| AttributeScan.ScanNameBackward | Parser/XmlContextParser.cs:325-338 | the backward loop finds the start of the attribute-name partial |
| AttributeScan.AttrPartialIsMaximalNameRun | Parser/XmlContextParser.cs:325-338 | the partial is the longest run of name characters ending at the cursor that starts no earlier than the attributes area |
| XmlnsScan.ReadPrefix | Parser/XmlContextParser.cs:487-497 | the prefix after `xmlns:` and the index after it, as PrefixAfter defines them |
| XmlnsScan.ReadAssignment | Parser/XmlContextParser.cs:499-514 | whitespace, '=' and whitespace are read as AssignmentAt defines |
| XmlnsScan.ReadValue | Parser/XmlContextParser.cs:516-535 | a quoted value that mentions the A2v10 namespace returns the prefix; otherwise the search resumes after it |
| XmlnsScan.PrefixAfter | Parser/XmlContextParser.cs:487-497 | the index after the prefix lies past `xmlns` and inside the window |
| XmlnsScan.DeclarationAt | Parser/XmlContextParser.cs:483-535 | a declaration that does not return resumes the search further on |
| XmlnsScan.AssignmentAt | Parser/XmlContextParser.cs:499-514 | a malformed assignment resumes the search further on |
| XmlnsScan.ValueAt | Parser/XmlContextParser.cs:516-535 | a value that does not match resumes the search further on |
| XmlnsScan.DetectA2v10Prefix | Parser/XmlContextParser.cs:469-539 | the loop returns PrefixScan over text[..min(\|text\|, limit)] |
| XmlnsScan.PrefixScanReadsOnlyWindow | Parser/XmlContextParser.cs:474-536 | two texts that agree on the window give the same prefix |
| XmlnsScan.DetectionReadsOnlyWindow | Parser/XmlContextParser.cs:469-539 | the detected prefix is a function of text[..min(\|text\|, limit)] |
| XmlnsScan.ValueAtFound | Parser/XmlContextParser.cs:516-533 | a value that returns is quoted, closes inside the window and mentions the A2v10 namespace |
| XmlnsScan.AssignmentAtFound | Parser/XmlContextParser.cs:499-514 | an assignment that returns has '=' followed by such a value |
| XmlnsScan.PrefixAfterFound | Parser/XmlContextParser.cs:487-497 | a returned prefix is the run of name characters right after `xmlns:` |
| XmlnsScan.DeclarationFound | Parser/XmlContextParser.cs:483-533 | a declaration that returns a prefix is `xmlns:` with that prefix and an A2v10 value |
| XmlnsScan.PrefixScanFindsDeclaration | Parser/XmlContextParser.cs:477-536 | a returned prefix is non-empty and declared by an `xmlns:` attribute inside the window |
| XmlnsScan.ValueAtQuoted | Parser/XmlContextParser.cs:516-535 | a value quoted up to the next same quote inside the window returns the prefix when it names A2v10, and resumes after it otherwise |
| XmlnsScan.AssignmentReachesValue | Parser/XmlContextParser.cs:499-514 | whitespace, '=' and whitespace lead to the value at its opening quote |
| XmlnsScan.AssignmentAtQuoted | Parser/XmlContextParser.cs:499-535 | a well-formed quoted assignment returns the prefix when its value names A2v10, and resumes after the closing quote otherwise |
| XmlnsScan.DeclarationAtXmlns | Parser/XmlContextParser.cs:483-535 | at `xmlns` or `xmlns:p` followed by a quoted assignment, the step returns p (None for the default namespace) when the value names A2v10, and resumes after the value otherwise |
| XmlnsScan.ScanAtDeclaration | Parser/XmlContextParser.cs:477-536 | completeness: when the first `xmlns` at or after the search position is such a declaration, the scan returns its prefix if the value names A2v10 and goes on after the value otherwise |
| XmlnsScan.DeclaredPrefixIsFound | Parser/XmlContextParser.cs:473 | a first declaration `xmlns:p` whose quoted value names A2v10, with any whitespace around '=' and either quote, gives p |
| XmlnsScan.DefaultNamespaceGivesNone | Parser/XmlContextParser.cs:472 | a first declaration `xmlns` (no prefix) whose quoted value names A2v10, with any whitespace around '=' and either quote, gives None |
| XmlContextParser.ScanStart | Parser/XmlContextParser.cs:24 | the window starts at 0 within MaxScanBack of the start, and MaxScanBack before the cursor otherwise |
| XmlContextParser.XmlnsWindow | Parser/XmlContextParser.cs:28 | the xmlns window is the smallest of the position, the text length and XmlnsScanLimit |
| XmlContextParser.Parse | Parser/XmlContextParser.cs:16-32 | Parse returns ContextAt: the degenerate cases, then the context with the A2v10 prefix attached |
| XmlContextParser.DetermineContext | Parser/XmlContextParser.cs:36-56 | returns ContextIn: a special construct first, then content or the tag context of the nearest unclosed '<' |
| XmlContextParser.CheckSpecialContexts | Parser/XmlContextParser.cs:87-133 | returns a None-kind context exactly when the cursor is in an unclosed comment, CDATA or PI as InSpecialConstruct defines it |
| XmlContextParser.CheckComment | Parser/XmlContextParser.cs:96-106 | reports the nearest `<!--` and whether it is unclosed at the cursor |
| XmlContextParser.CheckCData | Parser/XmlContextParser.cs:108-115 | reports the nearest `<![CDATA[` and whether it is unclosed at the cursor |
| XmlContextParser.CheckProcessingInstruction | Parser/XmlContextParser.cs:117-130 | reports whether the nearest `<?` lies after the CDATA opener and is unclosed at the cursor |
| XmlContextParser.BuildContentContext | Parser/XmlContextParser.cs:355-365 | the content context: empty partial at the cursor, parent searched before the cursor |
| XmlContextParser.BuildTagContext | Parser/XmlContextParser.cs:139-225 | the tag context TagContext defines |
| XmlContextParser.BuildNamedTagContext | Parser/XmlContextParser.cs:185-224 | the context of an opening tag once its name token is read |
| XmlContextParser.BuildAttributeContext | Parser/XmlContextParser.cs:227-349 | the attribute context AttributeContext defines |
| ContextProperties.DegenerateInput | Parser/XmlContextParser.cs:18-22 | empty text or a cursor outside [0, \|text\|] gives an empty None context, and the cursor at 0 gives an empty Content context |
| ContextProperties.NearestOpenerUnclosed | Parser/XmlContextParser.cs:96-102 | if any opener in the window is unclosed at the cursor, so is the nearest one |
| ContextProperties.FoundOpenerUnclosed | Parser/XmlContextParser.cs:87-133 | an opener found by FindBackward whose closer FindForward does not find before the cursor is unclosed in the window |
| ContextProperties.CommentOpenerUnclosed | Parser/XmlContextParser.cs:96-106 | when the comment check reports an unclosed comment, its `<!--` is unclosed in the window |
| ContextProperties.CDataOpenerUnclosed | Parser/XmlContextParser.cs:108-115 | the same for `<![CDATA[` |
| ContextProperties.PIOpenerUnclosed | Parser/XmlContextParser.cs:117-130 | the same for `<?` |
| ContextProperties.UnclosedCommentOrCDataIsSpecial | Parser/XmlContextParser.cs:96-115 | an unclosed `<!--` or `<![CDATA[` anywhere in the window puts the cursor in a special construct |
| ContextProperties.UnclosedPIIsSpecial | Parser/XmlContextParser.cs:117-130 | an unclosed `<?` counts only when no `<![CDATA[` opener comes after it in the window |
| ContextProperties.SpecialHasUnclosedOpener | Parser/XmlContextParser.cs:87-133 | the cursor is in a special construct only behind an unclosed opener in the window |
| ContextProperties.UnclosedTagOpenMeaning | Parser/XmlContextParser.cs:67-81 | the '<' found is the nearest angle bracket to the cursor; -1 exactly when that bracket is '>' or there is none |
| ContextProperties.UnclosedTagAtUnique | Parser/XmlContextParser.cs:67-81 | at most one '<' is the nearest angle bracket |
| ContextProperties.ContentExactlyAfterClose | Parser/XmlContextParser.cs:44-53 | outside special constructs, the context is Content exactly when no '<' is nearer than every '>', with an empty partial at the cursor |
| ContextProperties.ContentInExactlyAfterClose | Parser/XmlContextParser.cs:44-53 | the same inside any window |
| ContextProperties.ContextAtAttachesPrefix | Parser/XmlContextParser.cs:24-31 | Parse's result is DetermineContext's with the detected prefix attached |
| ContextProperties.TagContextAfterOpen | Parser/XmlContextParser.cs:50-55 | behind an unclosed '<', the context is the tag context built from it |
| ContextProperties.TagContextDispatch | Parser/XmlContextParser.cs:50-55 | the same inside any window |
| ContextProperties.NoContextExactlyInSpecial | Parser/XmlContextParser.cs:36-56 | for a cursor past 0, the kind is None exactly in a special construct |
| ContextProperties.TagContextKinds | Parser/XmlContextParser.cs:139-225 | a tag context is never None or Content |
| ContextProperties.NamedTagContextAllKinds | Parser/XmlContextParser.cs:185-224 | an opening tag's context is never None, Content or ClosingTag |
| ContextProperties.TagContextPartial | Parser/XmlContextParser.cs:139-225 | in a tag context the partial input lies in text[start..position), with its prefix stripped |
| ContextProperties.NotOpeningTagPartial | Parser/XmlContextParser.cs:144-182 | the same for a '<' that does not open a tag: nothing typed yet, a closing tag, a comment or a PI |
| ContextProperties.EmptyTagPartial | Parser/XmlContextParser.cs:144-154 | with nothing typed after '<' the partial is empty and starts after the '<' |
| ContextProperties.ClosingTagPartial | Parser/XmlContextParser.cs:158-169 | after '</' the partial is the prefix-stripped text after the '/' |
| ContextProperties.OtherOpenerPartial | Parser/XmlContextParser.cs:171-182 | after '<!' or '<?' the partial is everything typed since the '<' |
| ContextProperties.NamedTagContextPartial | Parser/XmlContextParser.cs:185-224 | the same for an opening tag |
| ContextProperties.ElementPropertyPartial | Parser/XmlContextParser.cs:191-206 | the ElementProperty partial is the text after the first '.' |
| ContextProperties.TagNamePartial | Parser/XmlContextParser.cs:208-220 | the TagName partial is the prefix-stripped token |
| ContextProperties.AttributeContextPartial | Parser/XmlContextParser.cs:307-348 | the same partial facts for the two attribute contexts |
| ContextProperties.PartialInputIsTypedText | Parser/XmlContextParser.cs:16-32 | for every kind but None, the partial input is present, its start lies in the scan window, and it is a suffix of the text from its start to the cursor |
| ContextProperties.ElementPropertyExactly | Parser/XmlContextParser.cs:184-206 | after '<', the kind is ElementProperty exactly when an opening tag's name token reaches the cursor and holds a '.' |
| ContextProperties.OpeningTagElementProperty | Parser/XmlContextParser.cs:184-206 | the same once the opening tag's name token is read |
| ContextProperties.OpeningTagContext | Parser/XmlContextParser.cs:184-224 | after the '<' of an opening tag, the context is the one built from its name token |
| ContextProperties.NotOpeningTagKinds | Parser/XmlContextParser.cs:144-182 | a '<' that does not open a tag gives TagName or ClosingTag, with no existing attributes and no current attribute |
| ContextProperties.NamedTokenEndsEarly | Parser/XmlContextParser.cs:185-187 | a name token that stops before the cursor leaves a terminator in the typed text |
| ContextProperties.NamedElementProperty | Parser/XmlContextParser.cs:191-220 | a name token that reaches the cursor gives ElementProperty exactly when it holds a '.' |
| ContextProperties.NamedTagContextKinds | Parser/XmlContextParser.cs:222-224 | a name token ended before the cursor gives AttributeName or AttributeValue |
| ContextProperties.ElementPropertyParts | Parser/XmlContextParser.cs:191-206 | the current tag is the prefix-stripped part before the first '.', and the partial is the rest up to the cursor |
| ContextProperties.DottedTokenReachesCursor | Parser/XmlContextParser.cs:185-193 | a dotted token typed since the '<' is the whole tag name |
| ContextProperties.NamedElementPropertyParts | Parser/XmlContextParser.cs:191-206 | the same parts, stated for an opening tag's name token |
| ContextProperties.FirstDotSplit | Parser/XmlContextParser.cs:191-196 | splitting at the first '.' gives the text before it, which holds no '.', and the text after it |
| ContextProperties.AttributesOnlyInAttributeContexts | Parser/XmlContextParser.cs:308-348 | only the attribute contexts carry existing attributes or a current attribute, and only AttributeValue names the attribute |
| ContextProperties.TagContextAttributes | Parser/XmlContextParser.cs:139-225 | the same for a tag context |
| ContextProperties.NamedTagContextAttributes | Parser/XmlContextParser.cs:185-224 | the same for an opening tag |
| ContextProperties.AttributeValueIsOpenQuote | Parser/XmlContextParser.cs:308-322 | the kind is AttributeValue exactly when a quote is open at the cursor, and the partial holds no closing quote |
| ContextProperties.AttributeNamePartialIsNameRun | Parser/XmlContextParser.cs:324-348 | the AttributeName partial is the maximal name run ending at the cursor, with its prefix stripped |
| ContextProperties.ExistingAttributesAreRecorded | Parser/XmlContextParser.cs:238-305 | the existing attributes are the set the scan recorded; they include what any state on the way recorded and every attribute whose quoted value closed before the cursor |
| ContextProperties.ExistingAttributeWasClosed | Parser/XmlContextParser.cs:238-305 | every existing attribute is the prefix-stripped name of an attribute whose closing quote the scan passed |
| ContextProperties.TagContextParent | Parser/XmlContextParser.cs:139-225 | in a tag context, the parent is searched for before the '<' |
| ContextProperties.ParentSearchedBefore | Parser/XmlContextParser.cs:50-55 | the parent tag is searched for before the context's own '<', or before the cursor in content |
| ContextProperties.ParentSearchedIn | Parser/XmlContextParser.cs:50-55 | the same inside any window |
| ContextProperties.ParentTagIsOpeningTagBefore | Parser/XmlContextParser.cs:378-463 | a parent tag is the prefix-stripped name of an opening, non-self-closing tag that ends before the cursor inside the window |
| ContextProperties.ParentTagIsOpeningTagIn | Parser/XmlContextParser.cs:378-463 | the same inside any window |
| ContextProperties.A2v10PrefixReadsOnlyWindow | Parser/XmlContextParser.cs:28-29 | the prefix depends only on text[..min(position, 2000)] |
| ContextProperties.A2v10PrefixIsDeclared | Parser/XmlContextParser.cs:469-539 | a reported prefix is declared by `xmlns:prefix="..."` in the window, with a value that names the A2v10 namespace |
| ContextProperties.A2v10PrefixIsFound | Parser/XmlContextParser.cs:28-29 | when the first `xmlns` of the text is `xmlns:p="…"` naming A2v10 and its value closes before the cursor and inside the first 2000 characters, the context's prefix is p |
| ContextProperties.TypingChildTagName | Parser/XmlContextParser.cs:184-220 | on `<Page><Butt` with the cursor at the end, the context is TagName with partial "Butt" from index 7 and parent "Page" |
| ContextProperties.ClosedAttributeExample | Parser/XmlContextParser.cs:227-365 | on `<T a="v" ` with the cursor at the end, the context is AttributeName on tag T with an empty partial at 9, no parent, and existing attributes {a} |
| OrdinalOrder.OrdinalLessIrreflexive | Schema/XamlSchema.cs:66-68 | no string is ordinally before itself |
| OrdinalOrder.OrdinalLessTransitive | Schema/XamlSchema.cs:66-68 | ordinal order is transitive |
| OrdinalOrder.OrdinalLessTotal | Schema/XamlSchema.cs:66-68 | of two different strings, one is ordinally before the other |
| OrdinalOrder.SortedHasNoDuplicates | Schema/XamlSchema.cs:66-68 | a strictly sorted list holds each string once |
| OrdinalOrder.MemberOfSorting | Schema/XamlSchema.cs:66-68 | a sorting is empty exactly when its key set is |
| OrdinalOrder.SortingIsUnique | Schema/XamlSchema.cs:66-68 | two ordinal sortings of the same key set are equal |
| OrdinalOrder.MinOrdinal | Schema/XamlSchema.cs:66-68 | returns a member of the set that is before every other member |
| OrdinalOrder.SortOrdinal | Schema/XamlSchema.cs:66-68 | returns exactly the keys, strictly increasing in ordinal order |
| Schema.XamlSchema.GetAllowedChildTags | Schema/XamlSchema.cs:223-249 | AllTagNames for an unknown parent, no content property or an undeclared one; otherwise the list registered under the content property's declared type (a scalar) or its collection item type (a collection), and AllTagNames when that key is not registered or a collection has no item type |
| Schema.XamlSchema.GetAllowedChildTagsForProperty | Schema/XamlSchema.cs:251-274 | AllTagNames for an unknown tag or property; otherwise the list registered under the collection item type (a collection with one), else under the declared type (an element property), and AllTagNames when that key is not registered or the property is neither |
| Schema.XamlSchema.GetEnumValues | Schema/XamlSchema.cs:276-281 | the stored members of a known enum, and none for an unknown type |
| Schema.XamlSchema.GetAttributeNames | Schema/XamlSchema.cs:283-304 | none for an unknown tag; otherwise each non-collection property not declared yet, each once |
| Schema.XamlSchema.GetElementPropertyNames | Schema/XamlSchema.cs:306-323 | none for an unknown tag; otherwise each element or collection property except the content property, each once |
| Schema.ConvertEntries | Schema/XamlSchema.cs:131-144 | the copy succeeds exactly when no value is null, and then keeps the keys |
| Schema.CopyEntries | Schema/XamlSchema.cs:131-144 | the `foreach`/`builder.Add` loop builds ConvertEntries, or fails on a null value |
| Schema.BuildProperties | Schema/XamlSchema.cs:104-129 | a null dictionary gives an empty one; otherwise each property is normalised by PropertyFrom |
| Schema.BuildElements | Schema/XamlSchema.cs:76-102 | a null section gives no elements; otherwise each element is built by ElementFrom, and a null entry fails |
| Schema.BuildEnums | Schema/XamlSchema.cs:131-144 | the raw enum lists are copied; a null section gives none |
| Schema.BuildAllowedChildren | Schema/XamlSchema.cs:146-159 | the raw child lists are copied; a null section gives none |
| Schema.BuildAttachedProperties | Schema/XamlSchema.cs:161-185 | each attached property is normalised by AttachedFrom; a null section gives none |
| Schema.BuildFromRaw | Schema/XamlSchema.cs:57-74 | succeeds exactly when BuildSucceeds holds; the result is built from raw, and AllTagNames is the ordinal sorting of the element tags |
| Schema.CreateFallback | Schema/XamlSchema.cs:187-219 | the fallback schema: version 0, platform "fallback", and the seven tags with no properties, sorted into Alert, Button, Dialog, Grid, Page, StackPanel, TextBox |
| Schema.LoadFromResource | Schema/XamlSchemaLoader.cs:100-128 | a document is returned only if it was read and its version lies in [1, 2] |
| Schema.Load | Schema/XamlSchema.cs:44-55 | always a valid schema: the built one when loading and building succeed, the fallback otherwise; version 0 identifies the fallback |
| SchemaProperties.BuildSucceedsIffNoNullEntries | Schema/XamlSchema.cs:57-185 | building throws exactly when an entry of a present section, or a property of an element, is null |
| SchemaProperties.BuildIsDeterministic | Schema/XamlSchema.cs:57-74 | the schema built from a raw model is unique, whatever order the dictionaries are enumerated in |
| SchemaProperties.NullSectionsAreEmpty | Schema/XamlSchema.cs:57-185 | null sections give empty dictionaries, no elements give no tag names, and a null platform version gives "" |
| SchemaProperties.BuiltElementMirrorsRaw | Schema/XamlSchema.cs:76-102 | the elements are the raw ones under the same tags, each named by its tag; a null CLR type gives "" and null properties give none |
| SchemaProperties.BuiltPropertyMirrorsRaw | Schema/XamlSchema.cs:104-129 | a built property is its raw property with a null declared type read as "" |
| SchemaProperties.BuiltAttachedPropertyMirrorsRaw | Schema/XamlSchema.cs:161-185 | a built attached property is its raw entry with a null type read as "" and null applicable tags read as none |
| SchemaProperties.EnumValuesFromRaw | Schema/XamlSchema.cs:276-281 | on a built schema, GetEnumValues answers with the raw enum list, and with none for a type the raw model lacks |
| SchemaProperties.AllowedChildrenFromRaw | Schema/XamlSchema.cs:146-159 | the allowed-children lists of a built schema are the raw ones |
| SchemaProperties.ContentChildTagsMatchContentProperty | Schema/XamlSchema.cs:223-274 | under a parent, the two child-tag queries agree on its content property, except for an element-typed collection without item type or a non-element scalar whose declared type has a list |
| SchemaProperties.EveryPropertyIsOffered | Schema/XamlSchema.cs:283-323 | every property except the content property is offered as an attribute or an element property, and a collection only as an element property |
| SchemaProperties.DeclaringShrinksAttributeNames | Schema/XamlSchema.cs:296-299 | declaring more attributes never adds attribute names to offer |
| SchemaProperties.FallbackQueries | Schema/XamlSchema.cs:187-219 | the fallback schema offers every tag everywhere, knows no enum, and offers no attribute or element property |

## Left out

- Unicode character classes: `char.IsWhiteSpace`, `char.IsLetter` and
  `char.IsLetterOrDigit` are modelled on Latin-1 whitespace and ASCII letters
  and digits. The .NET tables for all of Unicode are not modelled.
- Ordinal order compares Unicode scalar values, not UTF-16 code units. The
  two orders differ only for characters outside the Basic Multilingual Plane.
- The `Lazy<XamlSchema>` singleton (`Instance`) is not modelled. `Load` is a
  method that is called once.
- XamlSchemaLoader's I/O and JSON are not modelled. `Load` takes the outcome
  of finding and deserialising the embedded resource as a parameter:
  `None` stands for a missing resource, a failed deserialisation or a
  JSON exception. Only the version check is modelled.
- Exceptions are not distinguished by type. Every exception that `Load`
  catches is a `None` result.
- A null `text` passed to `Parse`, and null keys passed to the schema queries,
  are not modelled. A Dafny string cannot be null. A null `existingAttrs`
  is `None` and excludes nothing.
- Null strings inside the raw enum and child-tag lists are not modelled.
  The raw lists are `seq<string>`.
- Schema.XamlSchema.GetAttributeNames: states the names as a set without
  duplicates, not their order, because the enumeration order of an
  `ImmutableDictionary` is unspecified.
- Schema.XamlSchema.GetElementPropertyNames: states the names as a set without
  duplicates, not their order, for the same reason.
- The completion source, its provider, the commit manager and its provider,
  and `Element.cs` are not part of this model. They are Visual Studio editor
  plumbing.
