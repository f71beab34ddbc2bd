/** The classification result of the cursor-context parser (Parser/XmlContext.cs). */
module XmlContextModel {
  import opened Wrappers

  /** What the cursor is inside. `NoContext` is the source's `XmlContextType.None`
      (renamed so that it does not clash with `Option.None`). */
  datatype XmlContextType =
    | NoContext        // outside markup, or inside a comment, CDATA section or PI
    | TagName          // after '<'
    | ClosingTag       // after '</'
    | AttributeName    // inside an opening tag, after its name
    | AttributeValue   // inside a quoted attribute value
    | ElementProperty  // after '<Tag.'
    | Content          // between tags

  /** The mutable C# record, built once per parse; null strings are `None`. */
  datatype XmlContext = XmlContext(
    kind: XmlContextType,
    currentTag: Option<string>,
    currentAttribute: Option<string>,
    parentTag: Option<string>,
    existingAttributes: set<string>,
    partialInput: Option<string>,
    partialInputStart: int,
    a2v10Prefix: Option<string>)

  /** `new XmlContext { Type = kind }`: every other property keeps its default. */
  function EmptyContext(kind: XmlContextType): XmlContext {
    XmlContext(kind, None, None, None, {}, None, 0, None)
  }
}
