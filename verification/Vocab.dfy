/** The ActivityStreams JSON codec (pkg/activitypub/vocab).

    An embedded value is marshalled by turning its Go structs into documents and merging them, the first
    document winning; what the structs do not know is kept in `additional`. Unmarshalling decodes each
    struct from the same document, and keeps in `additional` whatever is not a reserved property. A few
    struct fields (`cid`, `generator`, `tag`, `orderedItems`) are not reserved, so after unmarshalling they
    live both in a struct and in `additional`. Go's decoder takes a property for a struct field if the names
    are equal up to case.

    JSON text is abstracted to a JSON value, and URLs and times to their text. */
module Vocab {
  import opened Common

  datatype Json =
    | Null
    | Bool(b: bool)
    | Num(n: int)
    | Str(s: string)
    | Arr(elements: seq<Json>)
    | Obj(members: Document)

  type Document = map<string, Json>

  // ---------------------------------------------------------------------------------------------
  // Property names

  /** The folding of encoding/json: ASCII letters, and the two other characters that fold to ASCII letters. */
  function FoldChar(c: char): char {
    if 'A' <= c <= 'Z' then (c as int + 32) as char
    else if c == '\U{017F}' then 's'
    else if c == '\U{212A}' then 'k'
    else c
  }

  function Fold(s: string): string {
    seq(|s|, i requires 0 <= i < |s| => FoldChar(s[i]))
  }

  /** The property is taken for the struct field. */
  predicate Matches(key: string, field: string) {
    Fold(key) == Fold(field)
  }

  /** The property that is decoded into the field: the one of that name, or else one in another case. */
  ghost function KeyOf(d: Document, field: string): (key: Option<string>)
    ensures key.Some? ==> key.value in d && Matches(key.value, field)
    ensures key.None? ==> forall k :: k in d ==> !Matches(k, field)
  {
    if field in d then Some(field)
    else if k :| k in d && Matches(k, field) then Some(k)
    else None
  }

  // ---------------------------------------------------------------------------------------------
  // Go structs, by their field tables

  /** How a struct field is encoded. `Names` and `Urls` are one-or-many: a single string or an array. */
  datatype Kind = Names | Urls | Text | PlainText | Count | Objects | Object | Tags | Relations

  type Table = map<string, Kind>

  datatype Variant = ObjectVariant | CollectionVariant | OrderedVariant | ActivityVariant | AnchorEventVariant

  /** The field tables of the structs and the reserved properties. */
  datatype Schema = Schema(
    header: Table,
    collection: Table,
    ordered: Table,
    activity: Table,
    anchorEvent: Table,
    link: Table,
    reserved: set<string>
  ) {
    /** The fields a variant has besides the header. */
    function Fields(v: Variant): Table {
      match v
      case ObjectVariant => map[]
      case CollectionVariant => collection
      case OrderedVariant => ordered
      case ActivityVariant => activity
      case AnchorEventVariant => anchorEvent
    }
  }

  /** `objectType` */
  const HEADER: Table := map[
    "@context" := Names, "id" := Text, "url" := Urls, "type" := Names, "to" := Urls,
    "published" := Text, "startTime" := Text, "endTime" := Text, "cid" := PlainText,
    "inReplyTo" := Text, "attachment" := Objects, "attributedTo" := Text, "generator" := PlainText,
    "tag" := Tags]

  /** `activityType` */
  const ACTIVITY: Table := map["actor" := Text, "target" := Object, "object" := Object, "result" := Object]

  /** `collectionType` */
  const COLLECTION: Table := map[
    "current" := Text, "first" := Text, "last" := Text, "totalItems" := Count, "items" := Objects]

  /** `collectionType` with `orderedCollectionType` */
  const ORDERED: Table := COLLECTION["orderedItems" := Objects]

  /** `anchorEventType` */
  const ANCHOR_EVENT: Table := map["object" := Object]

  /** `linkType` */
  const LINK: Table := map["href" := Text, "rel" := Relations]

  /** `reservedProperties` */
  const RESERVED: set<string> := {
    "@context", "id", "type", "to", "published", "actor", "current", "first", "last", "items", "object",
    "result", "target", "endTime", "startTime", "totalItems", "url", "attributedTo", "inReplyTo",
    "attachment", "parent", "index"}

  const VOCABULARY: Schema := Schema(HEADER, COLLECTION, ORDERED, ACTIVITY, ANCHOR_EVENT, LINK, RESERVED)

  // ---------------------------------------------------------------------------------------------
  // Values

  /** A non-zero struct field. Zero fields (nil, empty string, empty slice) are absent from the struct. */
  datatype Value =
    | Strings(list: seq<string>)
    | UrlList(urls: seq<Option<string>>)      // None is a nil URL, which only decoding produces
    | Single(text: string)
    | Number(n: int)
    | Props(props: seq<Prop>)
    | Nested(prop: Prop)
    | Relationship(rels: seq<string>)

  type Struct = map<string, Value>

  /** An `ObjectProperty` or `TagProperty`: nil, an IRI, a document without a type, an embedded value, or (only
      as a tag) a link. */
  datatype Prop =
    | Nil
    | Iri(iri: string)
    | Doc(doc: Document)
    | Embedded(entity: Entity)
    | LinkTo(link: Struct)

  /** An object, collection, ordered collection, activity or anchor event. */
  datatype Entity = Entity(variant: Variant, header: Struct, own: Struct, additional: Document)

  // ---------------------------------------------------------------------------------------------
  // Marshalling

  /** `Document.MergeWith`: fields already present win. */
  function Merge(doc: Document, other: Document): Document {
    other + doc
  }

  function OneOrMany(elements: seq<Json>): Json {
    if |elements| == 1 then elements[0] else Arr(elements)
  }

  function TextsOf(list: seq<string>): seq<Json> {
    seq(|list|, i requires 0 <= i < |list| => Str(list[i]))
  }

  function UrlsOf(urls: seq<Option<string>>): seq<Json> {
    seq(|urls|, i requires 0 <= i < |urls| => if urls[i].Some? then Str(urls[i].value) else Null)
  }

  function EncodeValue(v: Value): Json
    decreases v
  {
    match v
    case Strings(list) => OneOrMany(TextsOf(list))
    case UrlList(urls) => OneOrMany(UrlsOf(urls))
    case Single(text) => Str(text)
    case Number(n) => Num(n)
    case Props(props) => Arr(seq(|props|, i requires 0 <= i < |props| => EncodeProp(props[i])))
    case Nested(prop) => EncodeProp(prop)
    case Relationship(rels) => Arr(TextsOf(rels))
  }

  function EncodeProp(p: Prop): Json
    decreases p
  {
    match p
    case Nil => Null
    case Iri(u) => Str(u)
    case Doc(d) => Obj(d)
    case Embedded(e) => Obj(Marshal(e))
    case LinkTo(link) =>
      var fields := map k | k in link :: EncodeValue(link[k]);
      Obj(Merge(fields, map["type" := Str("Link")]))
  }

  function Marshal(e: Entity): Document
    decreases e
  {
    var header := map k | k in e.header :: EncodeValue(e.header[k]);
    var own := map k | k in e.own :: EncodeValue(e.own[k]);
    Merge(Merge(header, e.additional), own)
  }

  // ---------------------------------------------------------------------------------------------
  // Unmarshalling

  /** An array of strings; json.Unmarshal also accepts null elements. */
  predicate IsTextArray(j: Json) {
    j.Arr? && forall i :: 0 <= i < |j.elements| ==> j.elements[i].Str? || j.elements[i].Null?
  }

  /** A null element of a string slice is the empty string. */
  function TextsIn(elements: seq<Json>): seq<string> {
    seq(|elements|, i requires 0 <= i < |elements| => if elements[i].Str? then elements[i].s else "")
  }

  /** A null element of a slice of URLs is nil. */
  function UrlsIn(elements: seq<Json>): seq<Option<string>> {
    seq(|elements|, i requires 0 <= i < |elements| => if elements[i].Str? then Some(elements[i].s) else None)
  }

  /** Decode one field. `Ok(None)` leaves the field at its zero value. */
  ghost function DecodeValue(sc: Schema, kind: Kind, j: Json): Result<Option<Value>, ()>
    decreases j, 4
  {
    if j.Null? then Ok(None)
    else match kind
      case Names =>
        if j.Str? then Ok(Some(Strings([j.s])))
        else if IsTextArray(j) then Ok(Some(Strings(TextsIn(j.elements)))) else Err(())
      case Urls =>
        if j.Str? then Ok(Some(UrlList([Some(j.s)])))
        else if IsTextArray(j) then Ok(Some(UrlList(UrlsIn(j.elements)))) else Err(())
      case Text => if j.Str? then Ok(Some(Single(j.s))) else Err(())
      case PlainText => if !j.Str? then Err(()) else if j.s == "" then Ok(None) else Ok(Some(Single(j.s)))
      case Count => if j.Num? then Ok(Some(Number(j.n))) else Err(())
      case Objects =>
        if !j.Arr? || exists i :: 0 <= i < |j.elements| && DecodeProp(sc, j.elements[i]).Err? then Err(())
        else if j.elements == [] then Ok(None)
        else Ok(Some(Props(seq(|j.elements|,
                               i requires 0 <= i < |j.elements| => DecodeProp(sc, j.elements[i]).value))))
      case Object =>
        var r := DecodeProp(sc, j);
        if r.Err? then Err(()) else Ok(Some(Nested(r.value)))
      case Tags =>
        if !j.Arr? || exists i :: 0 <= i < |j.elements| && DecodeTag(sc, j.elements[i]).Err? then Err(())
        else if j.elements == [] then Ok(None)
        else Ok(Some(Props(seq(|j.elements|,
                               i requires 0 <= i < |j.elements| => DecodeTag(sc, j.elements[i]).value))))
      case Relations =>
        if !IsTextArray(j) then Err(())
        else if j.elements == [] then Ok(None)
        else Ok(Some(Relationship(TextsIn(j.elements))))
  }

  /** `ObjectProperty.UnmarshalJSON`; a null never reaches it and leaves the pointer nil. */
  ghost function DecodeProp(sc: Schema, j: Json): Result<Prop, ()>
    decreases j, 3
  {
    match j
    case Null => Ok(Nil)
    case Str(s) => Ok(Iri(s))
    case Obj(d) =>
      var obj := Unmarshal(sc, ObjectVariant, j);
      if obj.Err? then Err(())
      else if "type" !in obj.value.header then Ok(Doc(d))
      else
        var variant := Classify(Types(obj.value));
        if variant.ObjectVariant? then Ok(Embedded(obj.value))
        else
          var e := Unmarshal(sc, variant, j);
          if e.Err? then Err(()) else Ok(Embedded(e.value))
    case _ => Err(())
  }

  /** `TagProperty.UnmarshalJSON` */
  ghost function DecodeTag(sc: Schema, j: Json): Result<Prop, ()>
    decreases j, 3
  {
    match j
    case Null => Ok(Nil)
    case Obj(d) =>
      var obj := Unmarshal(sc, ObjectVariant, j);
      if obj.Err? then Err(())
      else if "Link" !in Types(obj.value) then Ok(Embedded(obj.value))
      else if Decodes(sc, sc.link, j) then Ok(LinkTo(DecodeStruct(sc, sc.link, j)))
      else Err(())
    case _ => Err(())
  }

  /** Every property that is taken for a field of the table decodes. */
  ghost predicate Decodes(sc: Schema, fields: Table, j: Json)
    requires j.Obj?
    decreases j, 0
  {
    forall f, k :: f in fields && k in j.members && Matches(k, f) ==> DecodeValue(sc, fields[f], j.members[k]).Ok?
  }

  /** What one field of a struct is decoded to. A count that is missing or null is zero. */
  ghost function DecodeField(sc: Schema, kind: Kind, j: Json, f: string): Option<Value>
    requires j.Obj?
    requires forall k :: k in j.members && Matches(k, f) ==> DecodeValue(sc, kind, j.members[k]).Ok?
    decreases j, 0
  {
    var key := KeyOf(j.members, f);
    var v := if key.None? then None else DecodeValue(sc, kind, j.members[key.value]).value;
    if v.None? && kind.Count? then Some(Number(0)) else v
  }

  /** json.Unmarshal into a struct with the given fields. */
  ghost function DecodeStruct(sc: Schema, fields: Table, j: Json): Struct
    requires j.Obj? && Decodes(sc, fields, j)
    decreases j, 1
  {
    map f | f in fields && DecodeField(sc, fields[f], j, f).Some? :: DecodeField(sc, fields[f], j, f).value
  }

  /** The `UnmarshalJSON` of a variant: its structs are decoded from the same document, and what is left
      after deleting the reserved properties is kept. */
  ghost function Unmarshal(sc: Schema, v: Variant, j: Json): Result<Entity, ()>
    decreases j, 2
  {
    if j.Obj? && Decodes(sc, sc.header, j) && Decodes(sc, sc.Fields(v), j) then
      Ok(Entity(v, DecodeStruct(sc, sc.header, j), DecodeStruct(sc, sc.Fields(v), j), j.members - sc.reserved))
    else Err(())
  }

  function Types(e: Entity): seq<string> {
    if "type" in e.header && e.header["type"].Strings? then e.header["type"].list else []
  }

  const ACTIVITY_TYPES: seq<string> :=
    ["Follow", "Accept", "Reject", "Offer", "Like", "Invite", "Create", "Announce", "Undo"]

  /** The switch of `ObjectProperty.UnmarshalJSON` on the type property. */
  function Classify(types: seq<string>): Variant {
    if "Collection" in types then CollectionVariant
    else if "OrderedCollection" in types then OrderedVariant
    else if exists t :: t in ACTIVITY_TYPES && t in types then ActivityVariant
    else if "AnchorEvent" in types then AnchorEventVariant
    else ObjectVariant
  }
}
