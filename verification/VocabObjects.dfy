/** The loops of the ActivityStreams codec (pkg/activitypub/vocab), proved against the functions the codec's
    properties are stated about. */
module VocabObjects {
  import opened Vocab
  import VocabMeaning

  /** The slice returned by `reservedProperties`. */
  const RESERVED_PROPERTIES: seq<string> := [
    "@context", "id", "type", "to", "published", "actor", "current", "first", "last", "items", "object",
    "result", "target", "endTime", "startTime", "totalItems", "url", "attributedTo", "inReplyTo",
    "attachment", "parent", "index"]

  lemma ReservedPropertiesAreReserved()
    ensures forall k :: k in RESERVED_PROPERTIES <==> k in RESERVED
  {
    assert forall i :: 0 <= i < |RESERVED_PROPERTIES| ==> RESERVED_PROPERTIES[i] in RESERVED;
    ReservedIsListed();
  }

  lemma ReservedIsListed()
    ensures RESERVED <= set k | k in RESERVED_PROPERTIES
  {
    var P := RESERVED_PROPERTIES;
    assert RESERVED == {P[0], P[1], P[2], P[3], P[4], P[5], P[6], P[7], P[8], P[9], P[10], P[11], P[12], P[13],
                        P[14], P[15], P[16], P[17], P[18], P[19], P[20], P[21]};
  }

  /** Merging one more property of the other document. */
  lemma OneMoreMerged(doc: Document, other: Document, left: set<string>, k: string)
    requires k in left && left <= other.Keys
    ensures var merged := Merge(doc, other - left);
            Merge(doc, other - (left - {k})) == if k in merged then merged else merged[k := other[k]]
  {
    assert other - (left - {k}) == (other - left)[k := other[k]];
  }

  lemma AllMerged(doc: Document, other: Document)
    ensures Merge(doc, other - {}) == Merge(doc, other)
    ensures Merge(doc, other - other.Keys) == doc
  {
    assert other - {} == other;
    assert other - other.Keys == map[];
  }

  /** A `Document`, which is a Go map and so changed in place. */
  class DocumentMap {
    var entries: Document

    constructor (entries: Document)
      ensures this.entries == entries
    {
      this.entries := entries;
    }

    /** Fields of the other document that are already present are ignored. */
    method MergeWith(other: Document)
      modifies this
      ensures entries == Merge(old(entries), other)
    {
      var left := other.Keys;
      AllMerged(entries, other);
      while left != {}
        invariant left <= other.Keys
        invariant entries == Merge(old(entries), other - left)
        decreases |left|
      {
        var k :| k in left;
        OneMoreMerged(old(entries), other, left, k);
        if k !in entries {
          entries := entries[k := other[k]];
        }
        left := left - {k};
      }
      AllMerged(old(entries), other);
    }

    /** The loop of `ObjectType.UnmarshalJSON` that leaves only what no struct field stands for. */
    method DeleteReserved()
      modifies this
      ensures entries == old(entries) - RESERVED
    {
      for i := 0 to |RESERVED_PROPERTIES|
        invariant forall k :: k in entries <==> k in old(entries) && k !in RESERVED_PROPERTIES[..i]
        invariant forall k :: k in entries ==> entries[k] == old(entries)[k]
      {
        entries := entries - {RESERVED_PROPERTIES[i]};
        assert RESERVED_PROPERTIES[..i + 1] == RESERVED_PROPERTIES[..i] + [RESERVED_PROPERTIES[i]];
      }
      ReservedPropertiesAreReserved();
      assert RESERVED_PROPERTIES[..|RESERVED_PROPERTIES|] == RESERVED_PROPERTIES;
    }
  }

  /** `TypeProperty.is` */
  method HasType(types: seq<string>, t: string) returns (b: bool)
    ensures b <==> t in types
  {
    for i := 0 to |types|
      invariant t !in types[..i]
    {
      if types[i] == t {
        return true;
      }
    }
    return false;
  }

  /** `TypeProperty.Is`: all of the given types, and at least one is given. */
  method Is(types: seq<string>, wanted: seq<string>) returns (b: bool)
    ensures b <==> wanted != [] && forall t :: t in wanted ==> t in types
  {
    if wanted == [] {
      return false;
    }
    for i := 0 to |wanted|
      invariant forall t :: t in wanted[..i] ==> t in types
    {
      var has := HasType(types, wanted[i]);
      if !has {
        return false;
      }
    }
    return true;
  }

  /** `TypeProperty.IsAny`: one of the given types. */
  method IsAny(types: seq<string>, wanted: seq<string>) returns (b: bool)
    ensures b <==> exists t :: t in wanted && t in types
  {
    for i := 0 to |wanted|
      invariant forall t :: t in wanted[..i] ==> t !in types
    {
      var has := Is(types, [wanted[i]]);
      assert wanted[i] in [wanted[i]];
      if has {
        return true;
      }
    }
    return false;
  }

  /** The switch of `ObjectProperty.UnmarshalJSON`. */
  method ClassifyTypes(types: seq<string>) returns (v: Variant)
    ensures v == Classify(types)
    ensures v == CollectionVariant <==> "Collection" in types
    ensures v == OrderedVariant <==> "OrderedCollection" in types && "Collection" !in types
    ensures v == ActivityVariant <==>
              VocabMeaning.NamesAnActivity(types) && "Collection" !in types && "OrderedCollection" !in types
    ensures v == AnchorEventVariant <==> "AnchorEvent" in types && !VocabMeaning.NamesMore(types)
  {
    VocabMeaning.TypesDecide(types);
    var isCollection := HasType(types, "Collection");
    if isCollection {
      return CollectionVariant;
    }
    var isOrdered := HasType(types, "OrderedCollection");
    if isOrdered {
      return OrderedVariant;
    }
    var isActivity := IsAny(types, ACTIVITY_TYPES);
    if isActivity {
      return ActivityVariant;
    }
    var isAnchorEvent := HasType(types, "AnchorEvent");
    return if isAnchorEvent then AnchorEventVariant else ObjectVariant;
  }
}
