/**
 * The schema's records (Schema/ElementInfo.cs, Schema/PropertyInfo.cs,
 * Schema/AttachedPropertyInfo.cs) and the raw model the JSON resource is
 * deserialised into (Schema/XamlSchemaLoader.cs:14-91).  A C# reference that
 * may be null is an `Option`; an `ImmutableDictionary` is a `map`, an
 * `ImmutableArray` or `List` of strings a `seq<string>`.
 */
module SchemaTypes {
  import opened Wrappers

  /** XamlPropertyInfo: one property of an element. */
  datatype XamlPropertyInfo = XamlPropertyInfo(
    declaredType: string,                // full CLR type name of the property
    isEnum: bool,
    isElement: bool,
    isCollection: bool,
    collectionItemType: Option<string>,  // full CLR type name of the items
    canBeAttribute: bool,
    description: Option<string>)

  /** XamlElementInfo: one tag of the dialect. */
  datatype XamlElementInfo = XamlElementInfo(
    name: string,
    elementClrType: string,
    contentProperty: Option<string>,     // the property nested markup fills
    contentAsXamlAttr: bool,
    description: Option<string>,
    properties: map<string, XamlPropertyInfo>)

  /** AttachedPropertyInfo: a property `Owner.Name` settable on other tags. */
  datatype AttachedPropertyInfo = AttachedPropertyInfo(
    typeName: string,                    // the source's `Type`
    isEnum: bool,
    canBeAttribute: bool,
    applicableTags: seq<string>)

  // ---------------------------------------------------------------------------
  // The deserialised JSON document; every reference may be null.
  // ---------------------------------------------------------------------------

  datatype RawPropertyInfo = RawPropertyInfo(
    declaredType: Option<string>,
    isEnum: bool,
    isElement: bool,
    isCollection: bool,
    collectionItemType: Option<string>,
    canBeAttribute: bool,
    description: Option<string>)

  datatype RawElementInfo = RawElementInfo(
    elementClrType: Option<string>,
    description: Option<string>,
    contentProperty: Option<string>,
    contentAsXamlAttr: bool,
    properties: Option<map<string, Option<RawPropertyInfo>>>)

  datatype RawAttachedPropertyInfo = RawAttachedPropertyInfo(
    typeName: Option<string>,
    isEnum: bool,
    canBeAttribute: bool,
    applicableTags: Option<seq<string>>)

  datatype RawSchema = RawSchema(
    schemaVersion: int,
    platformVersion: Option<string>,
    elements: Option<map<string, Option<RawElementInfo>>>,
    enums: Option<map<string, Option<seq<string>>>>,
    allowedChildElements: Option<map<string, Option<seq<string>>>>,
    attachedProperties: Option<map<string, Option<RawAttachedPropertyInfo>>>)
}
