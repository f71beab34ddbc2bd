/**
 * Properties of the schema catalogue: what building from the raw model keeps
 * and normalises, when it throws, and how the child-tag queries relate to
 * each other and behave on the fallback schema.
 */
module SchemaProperties {
  import opened Wrappers
  import opened SchemaTypes
  import opened OrdinalOrder
  import opened Schema

  // ---------------------------------------------------------------------------
  // Building
  // ---------------------------------------------------------------------------

  /** Nothing in the raw model that the build dereferences is null: the
      entries of every present section and the properties of every element. */
  predicate NoNullEntries(raw: RawSchema) {
    (raw.elements.Some? ==>
      forall k :: k in raw.elements.value ==>
        raw.elements.value[k].Some? &&
        (raw.elements.value[k].value.properties.Some? ==> NoNullValues(raw.elements.value[k].value.properties.value))) &&
    (raw.enums.Some? ==> NoNullValues(raw.enums.value)) &&
    (raw.allowedChildElements.Some? ==> NoNullValues(raw.allowedChildElements.value)) &&
    (raw.attachedProperties.Some? ==> NoNullValues(raw.attachedProperties.value))
  }

  /** BuildFromRaw throws exactly when some entry it dereferences is null. */
  lemma BuildSucceedsIffNoNullEntries(raw: RawSchema)
    ensures BuildSucceeds(raw) <==> NoNullEntries(raw)
  {
    if raw.elements.Some? {
      var els := raw.elements.value;
      if ElementsBuild(els) {
        forall k | k in els
          ensures els[k].value.properties.Some? ==> NoNullValues(els[k].value.properties.value)
        {
          assert ElementFrom(k, els[k].value).Some?;
        }
      }
      if forall k :: k in els ==>
           (els[k].Some? && (els[k].value.properties.Some? ==> NoNullValues(els[k].value.properties.value))) {
        forall k | k in els
          ensures ElementFrom(k, els[k].value).Some?
        {
        }
      }
    }
  }

  /** The schema built from a raw model is determined by it: in particular
      AllTagNames does not depend on the order in which the elements were
      enumerated. */
  lemma BuildIsDeterministic(raw: RawSchema, s1: XamlSchema, s2: XamlSchema)
    requires BuiltFrom(raw, s1) && BuiltFrom(raw, s2)
    ensures s1 == s2
  {
    SortingIsUnique(s1.allTagNames, s2.allTagNames, s1.elements.Keys);
  }

  /** A null section gives an empty dictionary, a null platform version "",
      and no elements give no tag names. */
  lemma NullSectionsAreEmpty(raw: RawSchema, s: XamlSchema)
    requires BuiltFrom(raw, s)
    ensures raw.elements.None? ==> s.elements == map[] && s.allTagNames == []
    ensures raw.enums.None? ==> s.enums == map[]
    ensures raw.allowedChildElements.None? ==> s.allowedChildElements == map[]
    ensures raw.attachedProperties.None? ==> s.attachedProperties == map[]
    ensures raw.platformVersion.None? ==> s.platformVersion == ""
    ensures s.schemaVersion == raw.schemaVersion
  {
    if raw.elements.None? {
      MemberOfSorting(s.allTagNames, s.elements.Keys);
    }
  }

  /** The built elements are the raw ones under the same tags; each is named
      by its tag, a null CLR type becomes "", a null property dictionary an
      empty one, and the other fields are copied. */
  lemma BuiltElementMirrorsRaw(raw: RawSchema, s: XamlSchema, tag: string)
    requires BuiltFrom(raw, s)
    ensures tag in s.elements <==> raw.elements.Some? && tag in raw.elements.value
    ensures tag in s.elements ==>
      raw.elements.Some? && tag in raw.elements.value && raw.elements.value[tag].Some? &&
      var re := raw.elements.value[tag].value;
      var e := s.elements[tag];
      e.name == tag &&
      e.elementClrType == re.elementClrType.GetOr("") &&
      e.contentProperty == re.contentProperty &&
      e.contentAsXamlAttr == re.contentAsXamlAttr &&
      e.description == re.description &&
      (re.properties.None? ==> e.properties == map[]) &&
      (re.properties.Some? ==> e.properties.Keys == re.properties.value.Keys)
  {
    if tag in s.elements {
      assert raw.elements.Some?;
      assert ElementsBuild(raw.elements.value);
      assert ElementFrom(tag, raw.elements.value[tag].value).Some?;
    }
  }

  /** A built property is its raw property with a null declared type read
      as "". */
  lemma BuiltPropertyMirrorsRaw(raw: RawSchema, s: XamlSchema, tag: string, name: string)
    requires BuiltFrom(raw, s)
    requires tag in s.elements && name in s.elements[tag].properties
    ensures raw.elements.Some? && tag in raw.elements.value && raw.elements.value[tag].Some?
    ensures var re := raw.elements.value[tag].value;
      re.properties.Some? && name in re.properties.value && re.properties.value[name].Some? &&
      var rp := re.properties.value[name].value;
      var p := s.elements[tag].properties[name];
      p.declaredType == rp.declaredType.GetOr("") &&
      p.isEnum == rp.isEnum && p.isElement == rp.isElement && p.isCollection == rp.isCollection &&
      p.collectionItemType == rp.collectionItemType &&
      p.canBeAttribute == rp.canBeAttribute && p.description == rp.description
  {
    BuiltElementMirrorsRaw(raw, s, tag);
    var re := raw.elements.value[tag].value;
    assert ElementFrom(tag, re).Some?;
  }

  /** A built attached property is its raw entry with a null type read as ""
      and a null list of applicable tags read as the empty list. */
  lemma BuiltAttachedPropertyMirrorsRaw(raw: RawSchema, s: XamlSchema, key: string)
    requires BuiltFrom(raw, s)
    ensures key in s.attachedProperties <==> raw.attachedProperties.Some? && key in raw.attachedProperties.value
    ensures key in s.attachedProperties ==>
      raw.attachedProperties.Some? && key in raw.attachedProperties.value && raw.attachedProperties.value[key].Some? &&
      var ra := raw.attachedProperties.value[key].value;
      var a := s.attachedProperties[key];
      a.typeName == ra.typeName.GetOr("") && a.isEnum == ra.isEnum && a.canBeAttribute == ra.canBeAttribute &&
      a.applicableTags == ra.applicableTags.GetOr([])
  {
  }

  /** GetEnumValues on a built schema answers with the raw enum list, and
      with nothing for a type the raw model does not list. */
  lemma EnumValuesFromRaw(raw: RawSchema, s: XamlSchema, enumClrType: string)
    requires BuiltFrom(raw, s)
    ensures s.GetEnumValues(enumClrType) ==
      if raw.enums.Some? && enumClrType in raw.enums.value then raw.enums.value[enumClrType].GetOr([]) else []
  {
  }

  /** The allowed-children lists of a built schema are the raw ones. */
  lemma AllowedChildrenFromRaw(raw: RawSchema, s: XamlSchema, clrType: string)
    requires BuiltFrom(raw, s)
    ensures clrType in s.allowedChildElements <==> raw.allowedChildElements.Some? && clrType in raw.allowedChildElements.value
    ensures clrType in s.allowedChildElements ==>
      s.allowedChildElements[clrType] == raw.allowedChildElements.value[clrType].GetOr([])
  {
  }

  // ---------------------------------------------------------------------------
  // Queries
  // ---------------------------------------------------------------------------

  /** Under a parent with a content property p, the children GetAllowedChildTags
      offers are those GetAllowedChildTagsForProperty offers inside
      `<Parent.p>`, except when p is an element-typed collection without an
      item type, or neither a collection nor an element, and its declared
      type has its own list. */
  lemma ContentChildTagsMatchContentProperty(s: XamlSchema, parent: string)
    requires parent in s.elements && s.elements[parent].contentProperty.Some?
    ensures var c := s.elements[parent].contentProperty.value;
      s.GetAllowedChildTags(parent) != s.GetAllowedChildTagsForProperty(parent, c) ==>
        c in s.elements[parent].properties &&
        var p := s.elements[parent].properties[c];
        p.declaredType in s.allowedChildElements &&
        ((!p.isCollection && !p.isElement) || (p.isCollection && p.collectionItemType.None? && p.isElement))
  {
  }

  /** The element properties of a tag and its attribute names together
      offer every property except the content property, and a collection is
      offered only as an element property. */
  lemma EveryPropertyIsOffered(e: XamlElementInfo, n: string)
    requires n in e.properties && e.contentProperty != Some(n)
    ensures IsAttributeCandidate(e, n, None) || IsElementPropertyCandidate(e, n)
    ensures e.properties[n].isCollection ==> !IsAttributeCandidate(e, n, None) && IsElementPropertyCandidate(e, n)
  {
  }

  /** Declaring more attributes never adds attribute names to offer. */
  lemma DeclaringShrinksAttributeNames(e: XamlElementInfo, n: string, declared: set<string>, more: set<string>)
    requires declared <= more
    ensures IsAttributeCandidate(e, n, Some(more)) ==> IsAttributeCandidate(e, n, Some(declared))
    ensures IsAttributeCandidate(e, n, Some(declared)) ==> IsAttributeCandidate(e, n, None)
  {
  }

  /** The fallback schema offers every tag under every parent and inside
      every element property, and knows no enum. */
  lemma FallbackQueries(s: XamlSchema, tag: string, property: string, enumClrType: string)
    requires IsFallback(s)
    ensures s.GetAllowedChildTags(tag) == s.allTagNames
    ensures s.GetAllowedChildTagsForProperty(tag, property) == s.allTagNames
    ensures s.GetEnumValues(enumClrType) == []
    ensures tag in s.elements ==> !IsAttributeCandidate(s.elements[tag], property, None) &&
                                  !IsElementPropertyCandidate(s.elements[tag], property)
  {
  }
}
