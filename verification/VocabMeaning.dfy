/** What the decoder makes of a document, property by property, with the names of the ActivityStreams vocabulary
    (pkg/activitypub/vocab) written out. */
module VocabMeaning {
  import opened Common
  import opened Vocab
  import opened VocabShapes
  import opened VocabRoundTrip
  import opened VocabResults

  // ---------------------------------------------------------------------------------------------
  // Types

  /** One of the types is an activity. */
  predicate NamesAnActivity(types: seq<string>) {
    || "Follow" in types || "Accept" in types || "Reject" in types || "Offer" in types || "Like" in types
    || "Invite" in types || "Create" in types || "Announce" in types || "Undo" in types
  }

  /** One of the types is a collection or an activity. */
  predicate NamesMore(types: seq<string>) {
    "Collection" in types || "OrderedCollection" in types || NamesAnActivity(types)
  }

  /** The type decides the variant: a collection before an ordered collection before an activity before an anchor
      event, and anything else is a plain object. */
  lemma TypesDecide(types: seq<string>)
    ensures Classify(types) == CollectionVariant <==> "Collection" in types
    ensures Classify(types) == OrderedVariant <==> "OrderedCollection" in types && "Collection" !in types
    ensures Classify(types) == ActivityVariant <==>
              NamesAnActivity(types) && "Collection" !in types && "OrderedCollection" !in types
    ensures Classify(types) == AnchorEventVariant <==>
              "AnchorEvent" in types && !NamesAnActivity(types) && "Collection" !in types && "OrderedCollection" !in types
    ensures Classify(types) == ObjectVariant <==>
              !NamesAnActivity(types) && "AnchorEvent" !in types && "Collection" !in types && "OrderedCollection" !in types
  {
    ActivityTypes(types);
  }

  lemma ActivityTypes(types: seq<string>)
    ensures NamesAnActivity(types) <==> exists t :: t in ACTIVITY_TYPES && t in types
  {
    var a := ACTIVITY_TYPES;
    assert a[0] in a && a[1] in a && a[2] in a && a[3] in a && a[4] in a && a[5] in a && a[6] in a && a[7] in a && a[8] in a;
  }

  // ---------------------------------------------------------------------------------------------
  // What is kept of a property

  /** A text, for instance a URL or a time. */
  ghost predicate KeepsText(d: Document, s: Struct, f: string) {
    f in d && d[f].Str? && d[f].s != "" ==> f in s && s[f] == Single(d[f].s)
  }

  /** An IRI, a document or an embedded value. */
  ghost predicate KeepsProp(d: Document, s: Struct, f: string) {
    f in d && !d[f].Null? ==>
      DecodeProp(VOCABULARY, d[f]).Ok? && f in s && s[f] == Nested(DecodeProp(VOCABULARY, d[f]).value)
  }

  /** A list of those. */
  ghost predicate KeepsProps(d: Document, s: Struct, f: string) {
    f in d && d[f].Arr? && d[f].elements != [] ==>
      && f in s && s[f].Props? && |s[f].props| == |d[f].elements|
      && forall i :: 0 <= i < |d[f].elements| ==>
           DecodeProp(VOCABULARY, d[f].elements[i]) == Ok(s[f].props[i])
  }

  ghost predicate KeepsTags(d: Document, s: Struct, f: string) {
    f in d && d[f].Arr? && d[f].elements != [] ==>
      && f in s && s[f].Props? && |s[f].props| == |d[f].elements|
      && forall i :: 0 <= i < |d[f].elements| ==>
           DecodeTag(VOCABULARY, d[f].elements[i]) == Ok(s[f].props[i])
  }

  /** A count, which is zero if it is missing. */
  ghost predicate KeepsCount(d: Document, s: Struct, f: string) {
    && f in s
    && (f in d && d[f].Num? ==> s[f] == Number(d[f].n))
    && ((forall k :: k in d ==> !Matches(k, f)) ==> s[f] == Number(0))
  }

  /** A name, or a list of names, of which a null is the empty one. */
  ghost predicate KeepsNames(d: Document, s: Struct, f: string) {
    && (f in d && d[f].Str? ==> f in s && s[f] == Strings([d[f].s]))
    && (f in d && d[f].Arr? ==>
          && f in s && s[f].Strings? && |s[f].list| == |d[f].elements|
          && forall i :: 0 <= i < |d[f].elements| ==>
               s[f].list[i] == if d[f].elements[i].Str? then d[f].elements[i].s else "")
  }

  /** A URL, or a list of URLs, of which a null is nil. */
  ghost predicate KeepsUrls(d: Document, s: Struct, f: string) {
    && (f in d && d[f].Str? ==> f in s && s[f] == UrlList([Some(d[f].s)]))
    && (f in d && d[f].Arr? ==>
          && f in s && s[f].UrlList? && |s[f].urls| == |d[f].elements|
          && forall i :: 0 <= i < |d[f].elements| ==>
               s[f].urls[i] == if d[f].elements[i].Str? then Some(d[f].elements[i].s) else None)
  }

  ghost predicate KeepsRelations(d: Document, s: Struct, f: string) {
    f in d && d[f].Arr? && d[f].elements != [] ==>
      && f in s && s[f].Relationship? && |s[f].rels| == |d[f].elements|
      && forall i :: 0 <= i < |d[f].elements| ==>
           s[f].rels[i] == if d[f].elements[i].Str? then d[f].elements[i].s else ""
  }

  ghost predicate Keeps(kind: Kind, d: Document, s: Struct, f: string) {
    match kind
    case Names => KeepsNames(d, s, f)
    case Urls => KeepsUrls(d, s, f)
    case Text => KeepsText(d, s, f)
    case PlainText => KeepsText(d, s, f)
    case Count => KeepsCount(d, s, f)
    case Objects => KeepsProps(d, s, f)
    case Object => KeepsProp(d, s, f)
    case Tags => KeepsTags(d, s, f)
    case Relations => KeepsRelations(d, s, f)
  }

  lemma FieldIsKept(fields: Table, d: Document, f: string)
    requires Decodes(VOCABULARY, fields, Obj(d)) && f in fields
    ensures Keeps(fields[f], d, DecodeStruct(VOCABULARY, fields, Obj(d)), f)
  {
    DecodedAt(VOCABULARY, fields, Obj(d), f);
    if f in d {
      assert Matches(f, f);
      assert KeyOf(d, f) == Some(f);
    } else if forall k :: k in d ==> !Matches(k, f) {
      assert KeyOf(d, f).None?;
    }
  }

  // ---------------------------------------------------------------------------------------------
  // The variants

  lemma ActivityFields()
    ensures ACTIVITY.Keys == {"actor", "target", "object", "result"}
    ensures ACTIVITY["actor"] == Text && ACTIVITY["target"] == Object && ACTIVITY["object"] == Object
    ensures ACTIVITY["result"] == Object
  {
  }

  lemma CollectionFields()
    ensures COLLECTION.Keys == {"current", "first", "last", "totalItems", "items"}
    ensures COLLECTION["current"] == Text && COLLECTION["first"] == Text && COLLECTION["last"] == Text
    ensures COLLECTION["totalItems"] == Count && COLLECTION["items"] == Objects
  {
  }

  /** An activity keeps its actor, target, object and result. */
  lemma ActivityKeepsItsFields(d: Document)
    requires Unmarshal(VOCABULARY, ActivityVariant, Obj(d)).Ok?
    ensures var own := Unmarshal(VOCABULARY, ActivityVariant, Obj(d)).value.own;
            && own.Keys <= {"actor", "target", "object", "result"}
            && KeepsText(d, own, "actor") && KeepsProp(d, own, "target") && KeepsProp(d, own, "object")
            && KeepsProp(d, own, "result")
  {
    ActivityFields();
    FieldIsKept(ACTIVITY, d, "actor");
    FieldIsKept(ACTIVITY, d, "target");
    FieldIsKept(ACTIVITY, d, "object");
    FieldIsKept(ACTIVITY, d, "result");
  }

  /** A collection keeps its pages, its count and its items. */
  lemma CollectionKeepsItsFields(d: Document)
    requires Unmarshal(VOCABULARY, CollectionVariant, Obj(d)).Ok?
    ensures var own := Unmarshal(VOCABULARY, CollectionVariant, Obj(d)).value.own;
            && own.Keys <= {"current", "first", "last", "totalItems", "items"}
            && KeepsText(d, own, "current") && KeepsText(d, own, "first") && KeepsText(d, own, "last")
            && KeepsCount(d, own, "totalItems") && KeepsProps(d, own, "items")
  {
    CollectionFields();
    FieldIsKept(COLLECTION, d, "current");
    FieldIsKept(COLLECTION, d, "first");
    FieldIsKept(COLLECTION, d, "last");
    FieldIsKept(COLLECTION, d, "totalItems");
    FieldIsKept(COLLECTION, d, "items");
  }

  lemma OrderedFields()
    ensures ORDERED.Keys == {"current", "first", "last", "totalItems", "items", "orderedItems"}
    ensures ORDERED["current"] == Text && ORDERED["first"] == Text && ORDERED["last"] == Text
    ensures ORDERED["totalItems"] == Count && ORDERED["items"] == Objects && ORDERED["orderedItems"] == Objects
  {
    CollectionFields();
  }

  /** An ordered collection keeps the same and its ordered items. */
  lemma OrderedCollectionKeepsItsFields(d: Document)
    requires Unmarshal(VOCABULARY, OrderedVariant, Obj(d)).Ok?
    ensures var own := Unmarshal(VOCABULARY, OrderedVariant, Obj(d)).value.own;
            && own.Keys <= {"current", "first", "last", "totalItems", "items", "orderedItems"}
            && KeepsText(d, own, "current") && KeepsText(d, own, "first") && KeepsText(d, own, "last")
            && KeepsCount(d, own, "totalItems") && KeepsProps(d, own, "items") && KeepsProps(d, own, "orderedItems")
  {
    OrderedFields();
    FieldIsKept(ORDERED, d, "current");
    FieldIsKept(ORDERED, d, "first");
    FieldIsKept(ORDERED, d, "last");
    FieldIsKept(ORDERED, d, "totalItems");
    FieldIsKept(ORDERED, d, "items");
    FieldIsKept(ORDERED, d, "orderedItems");
  }

  /** An anchor event keeps its object. */
  lemma AnchorEventKeepsItsFields(d: Document)
    requires Unmarshal(VOCABULARY, AnchorEventVariant, Obj(d)).Ok?
    ensures var own := Unmarshal(VOCABULARY, AnchorEventVariant, Obj(d)).value.own;
            own.Keys <= {"object"} && KeepsProp(d, own, "object")
  {
    FieldIsKept(ANCHOR_EVENT, d, "object");
  }

  lemma HeaderFields()
    ensures HEADER.Keys == {"@context", "id", "url", "type", "to", "published", "startTime", "endTime", "cid",
                            "inReplyTo", "attachment", "attributedTo", "generator", "tag"}
    ensures HEADER["@context"] == Names && HEADER["type"] == Names && HEADER["url"] == Urls && HEADER["to"] == Urls
    ensures HEADER["id"] == Text && HEADER["published"] == Text && HEADER["startTime"] == Text
    ensures HEADER["endTime"] == Text && HEADER["inReplyTo"] == Text && HEADER["attributedTo"] == Text
    ensures HEADER["cid"] == PlainText && HEADER["generator"] == PlainText
    ensures HEADER["attachment"] == Objects && HEADER["tag"] == Tags
  {
  }

  /** Every variant keeps the fields all objects have. */
  lemma ObjectKeepsItsFields(v: Variant, d: Document, kind: Kind, f: string)
    requires Unmarshal(VOCABULARY, v, Obj(d)).Ok?
    requires match kind
             case Names => f in {"@context", "type"}
             case Urls => f in {"url", "to"}
             case Text => f in {"id", "published", "startTime", "endTime", "inReplyTo", "attributedTo"}
             case PlainText => f in {"cid", "generator"}
             case Objects => f == "attachment"
             case Tags => f == "tag"
             case _ => false
    ensures Keeps(kind, d, Unmarshal(VOCABULARY, v, Obj(d)).value.header, f)
  {
    HeaderFields();
    FieldIsKept(HEADER, d, f);
  }

  // ---------------------------------------------------------------------------------------------
  // Properties

  /** An object with one of the activity types, and not typed as a collection, is decoded as an activity, with its
      actor, target, object and result. */
  lemma ActivityDecodes(d: Document, types: seq<string>)
    requires TypeNames(d) == Some(types) && DecodeProp(VOCABULARY, Obj(d)).Ok?
    requires NamesAnActivity(types) && "Collection" !in types && "OrderedCollection" !in types
    ensures var p := DecodeProp(VOCABULARY, Obj(d)).value;
            && p.Embedded? && p.entity.variant == ActivityVariant
            && KeepsText(d, p.entity.own, "actor") && KeepsProp(d, p.entity.own, "target")
            && KeepsProp(d, p.entity.own, "object") && KeepsProp(d, p.entity.own, "result")
  {
    VocabularyIsSound();
    TypesDecide(types);
    DecodedByType(VOCABULARY, d);
    ActivityKeepsItsFields(d);
  }

  /** Which variant an object with a type is decoded as. */
  lemma TypedObjectDecodes(d: Document, types: seq<string>)
    requires TypeNames(d) == Some(types) && DecodeProp(VOCABULARY, Obj(d)).Ok?
    ensures var p := DecodeProp(VOCABULARY, Obj(d)).value;
            && p.Embedded?
            && ("Collection" in types ==> p.entity.variant == CollectionVariant)
            && ("OrderedCollection" in types && "Collection" !in types ==> p.entity.variant == OrderedVariant)
            && ("AnchorEvent" in types && !NamesMore(types) ==> p.entity.variant == AnchorEventVariant)
            && ("AnchorEvent" !in types && !NamesMore(types) ==> p.entity.variant == ObjectVariant)
            && p.entity.additional == d - RESERVED
  {
    VocabularyIsSound();
    TypesDecide(types);
    DecodedByType(VOCABULARY, d);
  }

  lemma LinkFields()
    ensures LINK.Keys == {"href", "rel"} && LINK["href"] == Text && LINK["rel"] == Relations
  {
  }

  /** A tag of type Link keeps its reference and its relationship; any other tag is an object. */
  lemma TagDecodes(d: Document)
    requires DecodeTag(VOCABULARY, Obj(d)).Ok?
    ensures var p := DecodeTag(VOCABULARY, Obj(d)).value;
            if TypeNames(d).Some? && "Link" in TypeNames(d).value
            then p.LinkTo? && KeepsText(d, p.link, "href") && KeepsRelations(d, p.link, "rel")
            else p.Embedded? && p.entity.variant == ObjectVariant
  {
    VocabularyIsSound();
    TagDecodedByType(VOCABULARY, d);
    if IsLink(d) {
      LinkFields();
      FieldIsKept(LINK, d, "href");
      FieldIsKept(LINK, d, "rel");
    }
  }

  // ---------------------------------------------------------------------------------------------
  // Reserved properties

  lemma ReservedNames(p: string -> bool)
    requires p("@context") && p("id") && p("type") && p("to") && p("published") && p("actor") && p("current")
    requires p("first") && p("last") && p("items") && p("object") && p("result") && p("target") && p("endTime")
    requires p("startTime") && p("totalItems") && p("url") && p("attributedTo") && p("inReplyTo")
    requires p("attachment") && p("parent") && p("index")
    ensures forall k :: k in RESERVED ==> p(k)
  {
  }

  /** The properties that unmarshalling does not keep in `additional` are the fields of objects, collections and
      activities, but for `cid`, `generator` and `tag`, and `parent` and `index`. */
  predicate IsReserved(k: string) {
    || (k in HEADER && k != "cid" && k != "generator" && k != "tag")
    || k in COLLECTION || k in ACTIVITY || k == "parent" || k == "index"
  }

  lemma FieldsAreReserved()
    ensures forall k :: k in HEADER && k != "cid" && k != "generator" && k != "tag" ==> k in RESERVED
    ensures forall k :: k in COLLECTION || k in ACTIVITY ==> k in RESERVED
  {
    HeaderNames(f => f == "cid" || f == "generator" || f == "tag" || f in RESERVED);
    CollectionNames(f => f in RESERVED);
    ActivityNames(f => f in RESERVED);
    assert forall f :: f in HEADER ==> f == "cid" || f == "generator" || f == "tag" || f in RESERVED;
    assert forall f :: f in COLLECTION ==> f in RESERVED;
    assert forall f :: f in ACTIVITY ==> f in RESERVED;
  }

  lemma ReservedPropertiesAreFields()
    ensures forall k :: k in RESERVED ==> IsReserved(k)
  {
    HeaderFields();
    CollectionFields();
    ActivityFields();
    ReservedNames(IsReserved);
  }

  lemma NotReserved()
    ensures "cid" !in RESERVED && "generator" !in RESERVED && "tag" !in RESERVED && "orderedItems" !in RESERVED
    ensures "next" !in RESERVED && "prev" !in RESERVED && "partOf" !in RESERVED
    ensures "parent" in RESERVED && "index" in RESERVED
  {
  }

  lemma ReservedExactly(k: string)
    ensures k in RESERVED <==> IsReserved(k)
  {
    FieldsAreReserved();
    ReservedPropertiesAreFields();
    NotReserved();
  }

  // ---------------------------------------------------------------------------------------------
  // Spelling

  /** ASCII letters are taken for each other up to case, the long s for s and the Kelvin sign for k, and nothing
      else is taken for a letter. */
  lemma SpellingsOfItems()
    ensures Matches("ITEMS", "items") && Matches("item\U{017F}", "items")
    ensures !Matches("item", "items") && Matches("\U{212A}", "k") && !Matches("1tems", "items")
  {
    assert Fold("items") == "items" && Fold("ITEMS") == "items" && Fold("item\U{017F}") == "items";
    assert Fold("\U{212A}") == "k" && Fold("k") == "k";
    assert |Fold("item")| == 4;
    assert Fold("1tems")[0] == '1';
  }
}
