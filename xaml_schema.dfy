/**
 * The schema catalogue (Schema/XamlSchema.cs): built once from the raw
 * deserialised model, or replaced by a small hard-coded fallback when loading
 * fails, and never changed afterwards; queried for child tags, enum members,
 * attribute names and element-property names.
 *
 * The `foreach` + `builder.Add` loops are methods over the keys of a map,
 * taken in no particular order (the enumeration order of a .NET dictionary is
 * unspecified); they are proved equal to specification functions.  An
 * exception thrown while building (a null entry in a raw dictionary) is a
 * `None` result.
 */
module Schema {
  import opened Wrappers
  import opened SchemaTypes
  import opened OrdinalOrder

  /** The highest schema version XamlSchemaLoader accepts. */
  const SupportedSchemaVersion := 2

  /** The tags of the fallback schema, in the order CreateFallback adds them. */
  const FallbackTags: seq<string> := ["Page", "Dialog", "Alert", "Button", "TextBox", "Grid", "StackPanel"]

  /** The catalogue.  Its maps are never mutated after construction. */
  datatype XamlSchema = XamlSchema(
    elements: map<string, XamlElementInfo>,
    enums: map<string, seq<string>>,
    allowedChildElements: map<string, seq<string>>,
    attachedProperties: map<string, AttachedPropertyInfo>,
    allTagNames: seq<string>,
    schemaVersion: int,
    platformVersion: string)
  {
    /** AllTagNames lists the element tags in ordinal order. */
    predicate Valid() {
      IsOrdinalSortingOf(allTagNames, elements.Keys)
    }

    /** The child tags allowed under parentTagName: the list registered for
        the type of its content property (the item type for a collection),
        falling back to every tag. */
    function GetAllowedChildTags(parentTagName: string): (r: seq<string>)
      ensures r == allTagNames || r in allowedChildElements.Values
      ensures parentTagName !in elements ==> r == allTagNames
      ensures parentTagName in elements && elements[parentTagName].contentProperty.None? ==> r == allTagNames
      ensures (parentTagName in elements && elements[parentTagName].contentProperty.Some? &&
               elements[parentTagName].contentProperty.value !in elements[parentTagName].properties) ==> r == allTagNames
      ensures parentTagName in elements && elements[parentTagName].contentProperty.Some? &&
              elements[parentTagName].contentProperty.value in elements[parentTagName].properties ==>
        var p := elements[parentTagName].properties[elements[parentTagName].contentProperty.value];
        (!p.isCollection ==> r == RegisteredOrAll(p.declaredType)) &&
        (p.isCollection && p.collectionItemType.Some? ==> r == RegisteredOrAll(p.collectionItemType.value)) &&
        (p.isCollection && p.collectionItemType.None? ==> r == allTagNames)
    {
      if parentTagName !in elements then allTagNames
      else
        var parentElem := elements[parentTagName];
        match parentElem.contentProperty
        case None => allTagNames
        case Some(contentProp) =>
          if contentProp !in parentElem.properties then allTagNames
          else
            var propInfo := parentElem.properties[contentProp];
            if !propInfo.isCollection then
              if propInfo.declaredType in allowedChildElements then allowedChildElements[propInfo.declaredType]
              else allTagNames
            else if propInfo.collectionItemType.Some? && propInfo.collectionItemType.value in allowedChildElements then
              allowedChildElements[propInfo.collectionItemType.value]
            else allTagNames
    }

    /** The child tags allowed inside the element property `<tagName.propertyName>`. */
    function GetAllowedChildTagsForProperty(tagName: string, propertyName: string): (r: seq<string>)
      ensures tagName !in elements || propertyName !in elements[tagName].properties ==> r == allTagNames
      ensures r == allTagNames ||
        (tagName in elements && propertyName in elements[tagName].properties &&
         ListedForProperty(elements[tagName].properties[propertyName], r))
      ensures tagName in elements && propertyName in elements[tagName].properties ==>
        var p := elements[tagName].properties[propertyName];
        (p.isCollection && p.collectionItemType.Some? ==> r == RegisteredOrAll(p.collectionItemType.value)) &&
        (!(p.isCollection && p.collectionItemType.Some?) && p.isElement ==> r == RegisteredOrAll(p.declaredType)) &&
        (!(p.isCollection && p.collectionItemType.Some?) && !p.isElement ==> r == allTagNames)
    {
      if tagName !in elements then allTagNames
      else
        var elem := elements[tagName];
        if propertyName !in elem.properties then allTagNames
        else
          var propInfo := elem.properties[propertyName];
          if propInfo.isCollection && propInfo.collectionItemType.Some? then
            if propInfo.collectionItemType.value in allowedChildElements then allowedChildElements[propInfo.collectionItemType.value]
            else allTagNames
          else if propInfo.isElement then
            if propInfo.declaredType in allowedChildElements then allowedChildElements[propInfo.declaredType]
            else allTagNames
          else allTagNames
    }

    /** The child tags registered for clrType in AllowedChildElements, or
        every tag when none are registered. */
    function RegisteredOrAll(clrType: string): seq<string> {
      if clrType in allowedChildElements then allowedChildElements[clrType] else allTagNames
    }

    /** r is the list registered for the item type of the collection property
        p, or for the declared type of the element property p. */
    predicate ListedForProperty(p: XamlPropertyInfo, r: seq<string>) {
      if p.isCollection && p.collectionItemType.Some? then
        p.collectionItemType.value in allowedChildElements && r == allowedChildElements[p.collectionItemType.value]
      else
        p.isElement && p.declaredType in allowedChildElements && r == allowedChildElements[p.declaredType]
    }

    /** The members of the enum type, none for an unknown type. */
    function GetEnumValues(enumClrType: string): (r: seq<string>)
      ensures enumClrType in enums ==> r == enums[enumClrType]
      ensures enumClrType !in enums ==> r == []
    {
      if enumClrType in enums then enums[enumClrType] else []
    }

    /** The names that may still be written as attributes of tagName: every
        property that is not a collection and is not already declared. */
    method GetAttributeNames(tagName: string, existingAttrs: Option<set<string>>) returns (r: seq<string>)
      ensures tagName !in elements ==> r == []
      ensures forall n :: n in r <==> tagName in elements && IsAttributeCandidate(elements[tagName], n, existingAttrs)
      ensures NoDuplicates(r)
    {
      if tagName !in elements {
        return [];
      }
      var elem := elements[tagName];
      r := [];
      var todo := elem.properties.Keys;
      while todo != {}
        invariant todo <= elem.properties.Keys
        invariant forall n :: n in r ==> n !in todo
        invariant forall n :: n in r <==> n !in todo && IsAttributeCandidate(elem, n, existingAttrs)
        invariant NoDuplicates(r)
        decreases |todo|
      {
        var key :| key in todo;
        todo := todo - {key};
        // Collections need child elements, and declared names are not offered again.
        if elem.properties[key].isCollection {
          continue;
        }
        if existingAttrs.Some? && key in existingAttrs.value {
          continue;
        }
        r := r + [key];
      }
    }

    /** The properties of tagName that may be written as `<tagName.Name>`:
        those that are elements or collections, except the content property. */
    method GetElementPropertyNames(tagName: string) returns (r: seq<string>)
      ensures tagName !in elements ==> r == []
      ensures forall n :: n in r <==> tagName in elements && IsElementPropertyCandidate(elements[tagName], n)
      ensures NoDuplicates(r)
    {
      if tagName !in elements {
        return [];
      }
      var elem := elements[tagName];
      r := [];
      var todo := elem.properties.Keys;
      while todo != {}
        invariant todo <= elem.properties.Keys
        invariant forall n :: n in r ==> n !in todo
        invariant forall n :: n in r <==> n !in todo && IsElementPropertyCandidate(elem, n)
        invariant NoDuplicates(r)
        decreases |todo|
      {
        var key :| key in todo;
        todo := todo - {key};
        if !elem.properties[key].isElement && !elem.properties[key].isCollection {
          continue;
        }
        if Some(key) == elem.contentProperty {
          continue;
        }
        r := r + [key];
      }
    }
  }

  /** n is a property of e that is not a collection and not declared yet (a
      null set of declared names excludes nothing). */
  predicate IsAttributeCandidate(e: XamlElementInfo, n: string, existingAttrs: Option<set<string>>) {
    n in e.properties && !e.properties[n].isCollection && !(existingAttrs.Some? && n in existingAttrs.value)
  }

  /** n is an element or collection property of e other than its content
      property. */
  predicate IsElementPropertyCandidate(e: XamlElementInfo, n: string) {
    n in e.properties && (e.properties[n].isElement || e.properties[n].isCollection) && e.contentProperty != Some(n)
  }

  predicate NoDuplicates(s: seq<string>) {
    forall i, j :: 0 <= i < j < |s| ==> s[i] != s[j]
  }

  // ---------------------------------------------------------------------------
  // Building from the raw model (lines 57-185)
  // ---------------------------------------------------------------------------

  /** The null strings of a raw property become "", everything else is copied. */
  function PropertyFrom(rp: RawPropertyInfo): XamlPropertyInfo {
    XamlPropertyInfo(rp.declaredType.GetOr(""), rp.isEnum, rp.isElement, rp.isCollection,
                     rp.collectionItemType, rp.canBeAttribute, rp.description)
  }

  /** A null type becomes "", a null list of applicable tags the empty one. */
  function AttachedFrom(rp: RawAttachedPropertyInfo): AttachedPropertyInfo {
    AttachedPropertyInfo(rp.typeName.GetOr(""), rp.isEnum, rp.canBeAttribute, rp.applicableTags.GetOr([]))
  }

  /** `list.ToImmutableArray()`: the same strings in the same order. */
  function CopyList(list: seq<string>): seq<string> {
    list
  }

  /** No value of the raw dictionary is null. */
  predicate NoNullValues<V>(raw: map<string, Option<V>>) {
    forall k :: k in raw ==> raw[k].Some?
  }

  /** What a `foreach (var kvp in raw) builder.Add(kvp.Key, convert(kvp.Value))`
      loop builds: None when a null value makes the conversion throw. */
  function ConvertEntries<V, W>(raw: map<string, Option<V>>, convert: V -> W): (r: Option<map<string, W>>)
    ensures r.Some? <==> NoNullValues(raw)
    ensures r.Some? ==> r.value.Keys == raw.Keys
  {
    if NoNullValues(raw) then Some(map k | k in raw :: convert(raw[k].value)) else None
  }

  /** A raw section that may itself be null: null gives the empty map. */
  function SectionFrom<V, W>(raw: Option<map<string, Option<V>>>, convert: V -> W): Option<map<string, W>> {
    if raw.None? then Some(map[]) else ConvertEntries(raw.value, convert)
  }

  /** The element built for the raw entry `name`: None when one of its
      properties is null. */
  function ElementFrom(name: string, re: RawElementInfo): Option<XamlElementInfo> {
    match SectionFrom(re.properties, PropertyFrom)
    case None => None
    case Some(props) =>
      Some(XamlElementInfo(name, re.elementClrType.GetOr(""), re.contentProperty, re.contentAsXamlAttr, re.description, props))
  }

  /** Every raw element is present and builds. */
  predicate ElementsBuild(raw: map<string, Option<RawElementInfo>>) {
    forall k :: k in raw ==> raw[k].Some? && ElementFrom(k, raw[k].value).Some?
  }

  /** What BuildElements returns. */
  function ElementsFrom(raw: Option<map<string, Option<RawElementInfo>>>): Option<map<string, XamlElementInfo>> {
    if raw.None? then Some(map[])
    else if ElementsBuild(raw.value) then Some(map k | k in raw.value :: ElementFrom(k, raw.value[k].value).value)
    else None
  }

  /** BuildFromRaw returns (throws no exception). */
  predicate BuildSucceeds(raw: RawSchema) {
    ElementsFrom(raw.elements).Some? &&
    SectionFrom(raw.enums, CopyList).Some? &&
    SectionFrom(raw.allowedChildElements, CopyList).Some? &&
    SectionFrom(raw.attachedProperties, AttachedFrom).Some?
  }

  /** s is the schema BuildFromRaw makes of raw. */
  predicate BuiltFrom(raw: RawSchema, s: XamlSchema) {
    ElementsFrom(raw.elements) == Some(s.elements) &&
    SectionFrom(raw.enums, CopyList) == Some(s.enums) &&
    SectionFrom(raw.allowedChildElements, CopyList) == Some(s.allowedChildElements) &&
    SectionFrom(raw.attachedProperties, AttachedFrom) == Some(s.attachedProperties) &&
    IsOrdinalSortingOf(s.allTagNames, s.elements.Keys) &&
    s.schemaVersion == raw.schemaVersion &&
    s.platformVersion == raw.platformVersion.GetOr("")
  }

  /** The `foreach` + `builder.Add` loop shared by BuildProperties, BuildEnums,
      BuildAllowedChildren and BuildAttachedProperties. */
  method CopyEntries<V, W>(raw: map<string, Option<V>>, convert: V -> W) returns (r: Option<map<string, W>>)
    ensures r == ConvertEntries(raw, convert)
  {
    var builder: map<string, W> := map[];
    var todo := raw.Keys;
    while todo != {}
      invariant todo <= raw.Keys
      invariant builder.Keys == raw.Keys - todo
      invariant forall k :: k in builder ==> raw[k].Some? && builder[k] == convert(raw[k].value)
      decreases |todo|
    {
      var key :| key in todo;
      var value := raw[key];
      if value.None? {
        // The null value throws; the exception leaves the loop.
        return None;
      }
      builder := builder[key := convert(value.value)];
      todo := todo - {key};
    }
    assert NoNullValues(raw);
    assert builder == map k | k in raw :: convert(raw[k].value);
    return Some(builder);
  }

  method BuildProperties(rawProps: Option<map<string, Option<RawPropertyInfo>>>) returns (r: Option<map<string, XamlPropertyInfo>>)
    ensures r == SectionFrom(rawProps, PropertyFrom)
  {
    if rawProps.None? {
      return Some(map[]);
    }
    r := CopyEntries(rawProps.value, PropertyFrom);
  }

  method BuildElements(raw: RawSchema) returns (r: Option<map<string, XamlElementInfo>>)
    ensures r == ElementsFrom(raw.elements)
  {
    if raw.elements.None? {
      return Some(map[]);
    }
    var rawElements := raw.elements.value;
    var builder: map<string, XamlElementInfo> := map[];
    var todo := rawElements.Keys;
    while todo != {}
      invariant todo <= rawElements.Keys
      invariant builder.Keys == rawElements.Keys - todo
      invariant forall k :: k in builder ==>
        rawElements[k].Some? && ElementFrom(k, rawElements[k].value) == Some(builder[k])
      decreases |todo|
    {
      var key :| key in todo;
      var rawElem := rawElements[key];
      if rawElem.None? {
        return None;
      }
      var props := BuildProperties(rawElem.value.properties);
      if props.None? {
        return None;
      }
      builder := builder[key := XamlElementInfo(key, rawElem.value.elementClrType.GetOr(""), rawElem.value.contentProperty,
                                                 rawElem.value.contentAsXamlAttr, rawElem.value.description, props.value)];
      todo := todo - {key};
    }
    assert ElementsBuild(rawElements);
    assert builder == map k | k in rawElements :: ElementFrom(k, rawElements[k].value).value;
    return Some(builder);
  }

  method BuildEnums(raw: RawSchema) returns (r: Option<map<string, seq<string>>>)
    ensures r == SectionFrom(raw.enums, CopyList)
  {
    if raw.enums.None? {
      return Some(map[]);
    }
    r := CopyEntries(raw.enums.value, CopyList);
  }

  method BuildAllowedChildren(raw: RawSchema) returns (r: Option<map<string, seq<string>>>)
    ensures r == SectionFrom(raw.allowedChildElements, CopyList)
  {
    if raw.allowedChildElements.None? {
      return Some(map[]);
    }
    r := CopyEntries(raw.allowedChildElements.value, CopyList);
  }

  method BuildAttachedProperties(raw: RawSchema) returns (r: Option<map<string, AttachedPropertyInfo>>)
    ensures r == SectionFrom(raw.attachedProperties, AttachedFrom)
  {
    if raw.attachedProperties.None? {
      return Some(map[]);
    }
    r := CopyEntries(raw.attachedProperties.value, AttachedFrom);
  }

  /** BuildFromRaw: the schema of the raw model, or None for the exception a
      null entry throws. */
  method BuildFromRaw(raw: RawSchema) returns (r: Option<XamlSchema>)
    ensures r.Some? <==> BuildSucceeds(raw)
    ensures r.Some? ==> BuiltFrom(raw, r.value) && r.value.Valid()
  {
    var elements := BuildElements(raw);
    if elements.None? {
      return None;
    }
    var allTagNames := SortOrdinal(elements.value.Keys);
    var enums := BuildEnums(raw);
    if enums.None? {
      return None;
    }
    var allowed := BuildAllowedChildren(raw);
    if allowed.None? {
      return None;
    }
    var attached := BuildAttachedProperties(raw);
    if attached.None? {
      return None;
    }
    r := Some(XamlSchema(elements.value, enums.value, allowed.value, attached.value, allTagNames,
                         raw.schemaVersion, raw.platformVersion.GetOr("")));
  }

  // ---------------------------------------------------------------------------
  // The fallback schema and Load (lines 44-55, 187-219)
  // ---------------------------------------------------------------------------

  /** The element CreateFallback adds for one fallback tag. */
  function FallbackElement(name: string): XamlElementInfo {
    XamlElementInfo(name, "A2v10.Xaml." + name, None, false, None, map[])
  }

  /** s is the fallback schema: version 0, platform "fallback", exactly the
      seven fallback tags with no properties and no content property, sorted
      ordinally into AllTagNames, and no enums, allowed children or attached
      properties. */
  predicate IsFallback(s: XamlSchema) {
    s.schemaVersion == 0 && s.platformVersion == "fallback" &&
    (forall k :: k in s.elements ==> k in FallbackTags) &&
    (forall k :: k in FallbackTags ==> k in s.elements) &&
    (forall k :: k in s.elements ==> s.elements[k] == FallbackElement(k)) &&
    s.enums == map[] && s.allowedChildElements == map[] && s.attachedProperties == map[] &&
    s.allTagNames == ["Alert", "Button", "Dialog", "Grid", "Page", "StackPanel", "TextBox"]
  }

  method CreateFallback() returns (s: XamlSchema)
    ensures IsFallback(s) && s.Valid()
  {
    var elemBuilder: map<string, XamlElementInfo> := map[];
    for i := 0 to |FallbackTags|
      invariant forall k :: k in elemBuilder <==> k in FallbackTags[..i]
      invariant forall k :: k in elemBuilder ==> elemBuilder[k] == FallbackElement(k)
    {
      var name := FallbackTags[i];
      elemBuilder := elemBuilder[name := FallbackElement(name)];
    }
    assert FallbackTags[..|FallbackTags|] == FallbackTags;
    var allTagNames := SortOrdinal(elemBuilder.Keys);
    FallbackTagNamesSorted(elemBuilder.Keys);
    SortingIsUnique(allTagNames, ["Alert", "Button", "Dialog", "Grid", "Page", "StackPanel", "TextBox"], elemBuilder.Keys);
    s := XamlSchema(elemBuilder, map[], map[], map[], allTagNames, 0, "fallback");
  }

  /** The fallback tags in ordinal order. */
  lemma FallbackTagNamesSorted(keys: set<string>)
    requires forall k :: k in keys <==> k in FallbackTags
    ensures IsOrdinalSortingOf(["Alert", "Button", "Dialog", "Grid", "Page", "StackPanel", "TextBox"], keys)
  {
    var s := ["Alert", "Button", "Dialog", "Grid", "Page", "StackPanel", "TextBox"];
    forall i, j | 0 <= i < j < |s|
      ensures OrdinalLess(s[i], s[j])
    {
      assert s[i][0] < s[j][0];
    }
  }

  /** XamlSchemaLoader.LoadFromResource: the deserialised document, when the
      resource was found and read (`resource` is None otherwise) and its
      version is in [1, SupportedSchemaVersion]; None stands for the
      exception it throws. */
  function LoadFromResource(resource: Option<RawSchema>): (r: Option<RawSchema>)
    ensures r.Some? ==> resource == r && 1 <= r.value.schemaVersion <= SupportedSchemaVersion
  {
    if resource.Some? && 1 <= resource.value.schemaVersion <= SupportedSchemaVersion then resource else None
  }

  /** Load never fails: it builds the schema from the resource, and on any
      failure (no resource, an unsupported version, a null entry) returns the
      fallback schema. */
  method Load(resource: Option<RawSchema>) returns (s: XamlSchema)
    ensures s.Valid()
    ensures LoadFromResource(resource).Some? && BuildSucceeds(resource.value) ==> BuiltFrom(resource.value, s)
    ensures !(LoadFromResource(resource).Some? && BuildSucceeds(resource.value)) ==> IsFallback(s)
    ensures IsFallback(s) <==> s.schemaVersion == 0
    ensures s.schemaVersion == 0 || 1 <= s.schemaVersion <= SupportedSchemaVersion
  {
    var rawSchema := LoadFromResource(resource);
    if rawSchema.None? {
      s := CreateFallback();
      return;
    }
    var built := BuildFromRaw(rawSchema.value);
    if built.None? {
      s := CreateFallback();
      return;
    }
    s := built.value;
  }
}
