/** What survives marshalling and unmarshalling of ActivityStreams values (pkg/activitypub/vocab). */
module VocabRoundTrip {
  import opened Common
  import opened Vocab
  import opened VocabShapes

  // ---------------------------------------------------------------------------------------------
  // Well-formed values

  /** The value has the Go type of the field, and is not the zero value that `omitempty` drops. */
  predicate Typed(kind: Kind, v: Value) {
    match kind
    case Names => v.Strings?
    case Urls => v.UrlList? && v.urls != [None]
    case Text => v.Single?
    case PlainText => v.Single? && v.text != ""
    case Count => v.Number?
    case Objects => v.Props? && v.props != []
    case Object => v.Nested? && v.prop != Nil
    case Tags => v.Props? && v.props != []
    case Relations => v.Relationship? && v.rels != []
  }

  predicate TypedStruct(fields: Table, s: Struct) {
    && s.Keys <= fields.Keys
    && (forall k :: k in s ==> Typed(fields[k], s[k]))
    && forall k :: k in fields && fields[k].Count? ==> k in s
  }

  predicate NoReserved(sc: Schema, doc: Document) {
    forall k :: k in doc ==> k !in sc.reserved
  }

  /** The structs are well typed, `additional` holds no reserved property, and so for all values inside. */
  ghost predicate WellFormed(sc: Schema, e: Entity)
    decreases e
  {
    && TypedStruct(sc.header, e.header)
    && TypedStruct(sc.Fields(e.variant), e.own)
    && NoReserved(sc, e.additional)
    && (forall k :: k in e.header ==> WellFormedValue(sc, sc.header[k], e.header[k]))
    && forall k :: k in e.own ==> WellFormedValue(sc, sc.Fields(e.variant)[k], e.own[k])
  }

  ghost predicate WellFormedValue(sc: Schema, kind: Kind, v: Value)
    decreases v
  {
    match v
    case Props(props) =>
      forall i :: 0 <= i < |props| ==> if kind.Tags? then IsTag(sc, props[i]) else Classified(sc, props[i])
    case Nested(prop) => Classified(sc, prop)
    case _ => true
  }

  /** The variant that is set is the one the type property stands for; a document has no type. */
  ghost predicate Classified(sc: Schema, p: Prop)
    decreases p
  {
    match p
    case Nil => true
    case Iri(_) => true
    case Doc(d) => TypeNames(d).None?
    case Embedded(e) => WellFormed(sc, e) && "type" in e.header && Classify(Types(e)) == e.variant
    case LinkTo(_) => false
  }

  /** A tag is a link, or an object that is not of type Link. */
  ghost predicate IsTag(sc: Schema, p: Prop)
    decreases p
  {
    match p
    case Nil => true
    case LinkTo(link) => TypedStruct(sc.link, link)
    case Embedded(e) => WellFormed(sc, e) && e.variant.ObjectVariant? && !IsLink(Marshal(e))
    case _ => false
  }

  ghost predicate IsName(sc: Schema, k: string) {
    exists f :: f in FieldNames(sc) && Matches(k, f)
  }

  function FieldNames(sc: Schema): set<string> {
    sc.header.Keys + sc.collection.Keys + sc.ordered.Keys + sc.activity.Keys + sc.anchorEvent.Keys + sc.link.Keys
  }

  /** No object gives a field twice, in two spellings. Of two spellings Go decodes the one that comes last in the
      JSON text, and merges object-valued fields; a JSON value here has no order. */
  ghost predicate Unambiguous(sc: Schema, j: Json)
    decreases j
  {
    match j
    case Arr(elements) => forall i :: 0 <= i < |elements| ==> Unambiguous(sc, elements[i])
    case Obj(d) =>
      && (forall k, l :: k in d && l in d && Matches(k, l) && k != l ==> !IsName(sc, k))
      && forall k :: k in d && IsName(sc, k) ==> Unambiguous(sc, d[k])
    case _ => true
  }

  // ---------------------------------------------------------------------------------------------
  // Similar values

  /** The same value up to what `additional` has taken over: same variant, same typed fields, and so for
      everything inside, to any depth. */
  predicate Similar(e: Entity, f: Entity)
    decreases e
  {
    && f.variant == e.variant
    && (forall k :: k in e.header ==> k in f.header && SimilarValue(e.header[k], f.header[k]))
    && forall k :: k in e.own && k !in e.additional ==> k in f.own && SimilarValue(e.own[k], f.own[k])
  }

  predicate SimilarValue(v: Value, w: Value)
    decreases v
  {
    match v
    case Props(ps) =>
      w.Props? && |w.props| == |ps| && forall i :: 0 <= i < |ps| ==> SimilarProp(ps[i], w.props[i])
    case Nested(p) => w.Nested? && SimilarProp(p, w.prop)
    case _ => w == v
  }

  predicate SimilarProp(p: Prop, q: Prop)
    decreases p
  {
    match p
    case Embedded(e) => q.Embedded? && Similar(e, q.entity)
    case _ => q == p
  }

  // ---------------------------------------------------------------------------------------------
  // Where the properties of a value's document come from

  lemma HeaderAt(sc: Schema, e: Entity, k: string)
    requires WellFormed(sc, e) && k in e.header
    ensures k in Marshal(e) && Marshal(e)[k] == EncodeValue(e.header[k]) && KeyOf(Marshal(e), k) == Some(k)
  {
    MarshalIsMerge(e);
  }

  lemma OwnAt(sc: Schema, e: Entity, k: string)
    requires Sound(sc) && WellFormed(sc, e) && k in e.own && k !in e.additional
    ensures k in Marshal(e) && Marshal(e)[k] == EncodeValue(e.own[k]) && KeyOf(Marshal(e), k) == Some(k)
  {
    FieldsAreApart(sc, e.variant, k);
    MarshalIsMerge(e);
  }

  /** A property that is taken for a header field is that field of the header, or an additional property. */
  lemma HeaderOrigin(sc: Schema, e: Entity, f: string, k: string)
    requires Sound(sc) && WellFormed(sc, e) && f in sc.header && k in Marshal(e) && Matches(k, f)
    ensures k in e.header ==> k == f
    ensures k !in e.header ==> k in e.additional && Marshal(e)[k] == e.additional[k]
  {
    MarshalIsMerge(e);
    assert Apart(sc.header, sc.Fields(e.variant));
    assert k in sc.Fields(e.variant) ==> !Matches(f, k);
  }

  lemma OwnOrigin(sc: Schema, e: Entity, f: string, k: string)
    requires Sound(sc) && WellFormed(sc, e) && f in sc.Fields(e.variant) && k in Marshal(e) && Matches(k, f)
    ensures k !in e.header
    ensures k in e.additional ==> Marshal(e)[k] == e.additional[k]
    ensures k !in e.additional ==> k in e.own && k == f
  {
    MarshalIsMerge(e);
    assert Apart(sc.header, sc.Fields(e.variant));
    assert Distinct(sc.Fields(e.variant));
    assert k in sc.header ==> !Matches(k, f);
  }

  // ---------------------------------------------------------------------------------------------
  // The type comes back

  lemma NamesReturn(list: seq<string>)
    ensures var j := OneOrMany(TextsOf(list));
            (j.Str? && [j.s] == list) || (j.Arr? && IsTextArray(j) && TextsIn(j.elements) == list)
  {
    var j := OneOrMany(TextsOf(list));
    if |list| != 1 {
      assert TextsIn(j.elements) == list;
    }
  }

  lemma UrlsReturn(urls: seq<Option<string>>)
    requires urls != [None]
    ensures var j := OneOrMany(UrlsOf(urls));
            (j.Str? && [Some(j.s)] == urls) || (j.Arr? && IsTextArray(j) && UrlsIn(j.elements) == urls)
  {
    var j := OneOrMany(UrlsOf(urls));
    if |urls| != 1 {
      assert UrlsIn(j.elements) == urls;
    } else {
      assert urls == [urls[0]];
    }
  }

  lemma TypeReturns(sc: Schema, e: Entity)
    requires Sound(sc) && WellFormed(sc, e) && "type" in e.header
    ensures TypeNames(Marshal(e)) == Some(Types(e))
  {
    HeaderAt(sc, e, "type");
    assert Typed(sc.header["type"], e.header["type"]);
    NamesReturn(e.header["type"].list);
  }

  lemma LinkReturns(sc: Schema, link: Struct)
    requires Sound(sc) && TypedStruct(sc.link, link)
    ensures var d := EncodeProp(LinkTo(link)).members;
            && TypeNames(d) == Some(["Link"]) && IsLink(d)
            && (forall k :: k in link ==> k in d && d[k] == EncodeValue(link[k]))
            && (forall k :: k in d ==> k == "type" || k in link)
            && "type" in d && d["type"] == Str("Link")
  {
    TypeIsNoLinkField(sc);
    var d := EncodeProp(LinkTo(link)).members;
    assert d == Merge(EncodeStruct(link), map["type" := Str("Link")]);
    LinkKeys(sc, link, d);
    TypedAsLink(d);
  }

  lemma TypeIsNoLinkField(sc: Schema)
    requires Sound(sc)
    ensures "type" !in sc.link
  {
    assert Matches("type", "type");
  }

  lemma TypedAsLink(d: Document)
    requires "type" in d && d["type"] == Str("Link")
    ensures TypeNames(d) == Some(["Link"]) && IsLink(d)
  {
  }

  // ---------------------------------------------------------------------------------------------
  // The fields come back, by induction over the value

  lemma {:induction false} ValueReturns(sc: Schema, kind: Kind, v: Value)
    requires Sound(sc) && Typed(kind, v) && WellFormedValue(sc, kind, v)
    requires DecodeValue(sc, kind, EncodeValue(v)).Ok?
    ensures var o := DecodeValue(sc, kind, EncodeValue(v)).value;
            o.Some? && SimilarValue(v, o.value)
    decreases v
  {
    var j := EncodeValue(v);
    match v
    case Strings(list) => NamesReturn(list);
    case UrlList(urls) => UrlsReturn(urls);
    case Relationship(rels) => assert TextsIn(TextsOf(rels)) == rels;
    case Props(props) =>
      var w := DecodeValue(sc, kind, j).value.value;
      forall i | 0 <= i < |props| ensures SimilarProp(props[i], w.props[i]) {
        assert j.elements[i] == EncodeProp(props[i]);
        if kind.Tags? {
          assert DecodeTag(sc, j.elements[i]).Ok?;
          TagReturns(sc, props[i]);
        } else {
          assert DecodeProp(sc, j.elements[i]).Ok?;
          PropReturns(sc, props[i]);
        }
      }
    case Nested(prop) => PropReturns(sc, prop);
    case _ =>
  }

  lemma {:induction false} PropReturns(sc: Schema, p: Prop)
    requires Sound(sc) && Classified(sc, p) && DecodeProp(sc, EncodeProp(p)).Ok?
    ensures SimilarProp(p, DecodeProp(sc, EncodeProp(p)).value)
    decreases p
  {
    match p
    case Embedded(e) =>
      TypeReturns(sc, e);
      DecodedByType(sc, Marshal(e));
      EntityReturns(sc, e);
    case Doc(d) => DecodedByType(sc, d);
    case _ =>
  }

  lemma {:induction false} TagReturns(sc: Schema, p: Prop)
    requires Sound(sc) && IsTag(sc, p) && DecodeTag(sc, EncodeProp(p)).Ok?
    ensures SimilarProp(p, DecodeTag(sc, EncodeProp(p)).value)
    decreases p
  {
    match p
    case Embedded(e) =>
      TagDecodedByType(sc, Marshal(e));
      EntityReturns(sc, e);
    case LinkTo(link) =>
      LinkReturns(sc, link);
      TagDecodedByType(sc, EncodeProp(p).members);
      LinkFieldsReturn(sc, link);
    case _ =>
  }

  lemma LinkValueReturns(sc: Schema, kind: Kind, v: Value)
    requires (kind.Text? || kind.Relations?) && Typed(kind, v)
    ensures DecodeValue(sc, kind, EncodeValue(v)) == Ok(Some(v))
    ensures !Zero(kind, EncodeValue(v)) && Normal(sc, kind, EncodeValue(v))
  {
    if kind.Relations? {
      assert TextsIn(TextsOf(v.rels)) == v.rels;
    }
  }

  /** The property of a link's document that is taken for one of its fields is that field. */
  lemma LinkOrigin(sc: Schema, link: Struct, f: string, k: string)
    requires Sound(sc) && TypedStruct(sc.link, link) && f in sc.link
    requires k in EncodeProp(LinkTo(link)).members && Matches(k, f)
    ensures k == f && k in link && EncodeProp(LinkTo(link)).members[k] == EncodeValue(link[k])
  {
    LinkReturns(sc, link);
    assert Apart(sc.header, sc.link) && Distinct(sc.link);
    assert !Matches("type", f);
  }

  lemma LinkFieldReturns(sc: Schema, link: Struct, f: string)
    requires Sound(sc) && TypedStruct(sc.link, link) && Decodes(sc, sc.link, EncodeProp(LinkTo(link)))
    requires f in sc.link
    ensures DecodeField(sc, sc.link[f], EncodeProp(LinkTo(link)), f) == if f in link then Some(link[f]) else None
  {
    var j := EncodeProp(LinkTo(link));
    if f in link {
      LinkReturns(sc, link);
      LinkValueReturns(sc, sc.link[f], link[f]);
      PresentField(sc, sc.link[f], j, f, link[f]);
    } else {
      forall k | k in j.members ensures !Matches(k, f) {
        if Matches(k, f) {
          LinkOrigin(sc, link, f, k);
        }
      }
      assert KeyOf(j.members, f).None?;
    }
  }

  lemma PresentField(sc: Schema, kind: Kind, j: Json, f: string, v: Value)
    requires j.Obj? && f in j.members && DecodeValue(sc, kind, j.members[f]) == Ok(Some(v))
    requires forall k :: k in j.members && Matches(k, f) ==> DecodeValue(sc, kind, j.members[k]).Ok?
    ensures DecodeField(sc, kind, j, f) == Some(v)
  {
  }

  lemma LinkFieldsReturn(sc: Schema, link: Struct)
    requires Sound(sc) && TypedStruct(sc.link, link) && Decodes(sc, sc.link, EncodeProp(LinkTo(link)))
    ensures DecodeStruct(sc, sc.link, EncodeProp(LinkTo(link))) == link
  {
    var j := EncodeProp(LinkTo(link));
    var back := DecodeStruct(sc, sc.link, j);
    forall f | f in sc.link ensures (f in back <==> f in link) && (f in link ==> back[f] == link[f]) {
      DecodedAt(sc, sc.link, j, f);
      LinkFieldReturns(sc, link, f);
    }
  }

  lemma {:induction false} HeaderReturns(sc: Schema, e: Entity, k: string)
    requires Sound(sc) && WellFormed(sc, e) && Decodes(sc, sc.header, Obj(Marshal(e))) && k in e.header
    ensures var h := DecodeStruct(sc, sc.header, Obj(Marshal(e)));
            k in h && SimilarValue(e.header[k], h[k])
    decreases e, 0
  {
    HeaderAt(sc, e, k);
    assert Matches(k, k);
    ValueReturns(sc, sc.header[k], e.header[k]);
    DecodedAt(sc, sc.header, Obj(Marshal(e)), k);
  }

  lemma {:induction false} OwnReturns(sc: Schema, e: Entity, k: string)
    requires Sound(sc) && WellFormed(sc, e) && Decodes(sc, sc.Fields(e.variant), Obj(Marshal(e)))
    requires k in e.own && k !in e.additional
    ensures var o := DecodeStruct(sc, sc.Fields(e.variant), Obj(Marshal(e)));
            k in o && SimilarValue(e.own[k], o[k])
    decreases e, 0
  {
    OwnAt(sc, e, k);
    assert Matches(k, k);
    ValueReturns(sc, sc.Fields(e.variant)[k], e.own[k]);
    DecodedAt(sc, sc.Fields(e.variant), Obj(Marshal(e)), k);
  }

  lemma {:induction false} EntityReturns(sc: Schema, e: Entity)
    requires Sound(sc) && WellFormed(sc, e) && Unmarshal(sc, e.variant, Obj(Marshal(e))).Ok?
    ensures Similar(e, Unmarshal(sc, e.variant, Obj(Marshal(e))).value)
    decreases e, 1
  {
    var f := Unmarshal(sc, e.variant, Obj(Marshal(e))).value;
    forall k | k in e.header ensures k in f.header && SimilarValue(e.header[k], f.header[k]) {
      HeaderReturns(sc, e, k);
    }
    forall k | k in e.own && k !in e.additional ensures k in f.own && SimilarValue(e.own[k], f.own[k]) {
      OwnReturns(sc, e, k);
    }
  }

  // ---------------------------------------------------------------------------------------------
  // Which values can be read back

  /** What `additional` contributes to struct fields has the shape of those fields: text for `cid` and
      `generator`, tags for `tag`, for an ordered collection objects for `orderedItems`, and for a field in
      another case whatever that field takes. Everything inside is readable as well. */
  ghost predicate Readable(sc: Schema, e: Entity)
    requires WellFormed(sc, e)
    decreases e
  {
    && (forall k :: k in e.header ==> ReadableValue(sc, sc.header[k], e.header[k]))
    && (forall k :: k in e.own && k !in e.additional ==>
          ReadableValue(sc, sc.Fields(e.variant)[k], e.own[k]))
    && (forall f, k :: FeedsHeader(sc, e, f, k) ==> Accepts(sc, sc.header[f], e.additional[k]))
    && forall f, k :: FeedsOwn(sc, e, f, k) ==> Accepts(sc, sc.Fields(e.variant)[f], e.additional[k])
  }

  ghost predicate ReadableValue(sc: Schema, kind: Kind, v: Value)
    requires WellFormedValue(sc, kind, v)
    decreases v
  {
    match v
    case Props(props) =>
      forall i :: 0 <= i < |props| ==> if kind.Tags? then ReadableTag(sc, props[i]) else ReadableProp(sc, props[i])
    case Nested(prop) => ReadableProp(sc, prop)
    case _ => true
  }

  ghost predicate ReadableProp(sc: Schema, p: Prop)
    requires Classified(sc, p)
    decreases p
  {
    match p
    case Doc(d) => AcceptsProp(sc, Obj(d))
    case Embedded(e) => Readable(sc, e)
    case _ => true
  }

  ghost predicate ReadableTag(sc: Schema, p: Prop)
    requires IsTag(sc, p)
    decreases p
  {
    p.Embedded? ==> Readable(sc, p.entity)
  }

  lemma {:induction false} ValueReads(sc: Schema, kind: Kind, v: Value)
    requires Sound(sc) && Typed(kind, v) && WellFormedValue(sc, kind, v)
    ensures DecodeValue(sc, kind, EncodeValue(v)).Ok? <==> ReadableValue(sc, kind, v)
    decreases v
  {
    match v
    case Strings(list) => NamesReturn(list);
    case UrlList(urls) => UrlsReturn(urls);
    case Props(props) =>
      var j := EncodeValue(v);
      forall i | 0 <= i < |props|
        ensures kind.Objects? ==> (DecodeProp(sc, j.elements[i]).Ok? <==> ReadableProp(sc, props[i]))
        ensures kind.Tags? ==> (DecodeTag(sc, j.elements[i]).Ok? <==> ReadableTag(sc, props[i]))
      {
        if kind.Tags? {
          TagReads(sc, props[i]);
        } else {
          PropReads(sc, props[i]);
        }
      }
    case Nested(prop) => PropReads(sc, prop);
    case _ =>
  }

  lemma {:induction false} PropReads(sc: Schema, p: Prop)
    requires Sound(sc) && Classified(sc, p)
    ensures DecodeProp(sc, EncodeProp(p)).Ok? <==> ReadableProp(sc, p)
    decreases p
  {
    match p
    case Doc(d) => PropReadsExactly(sc, Obj(d));
    case Embedded(e) =>
      EntityReads(sc, e);
      TypeReturns(sc, e);
      DecodedByType(sc, Marshal(e));
    case _ =>
  }

  lemma {:induction false} TagReads(sc: Schema, p: Prop)
    requires Sound(sc) && IsTag(sc, p)
    ensures DecodeTag(sc, EncodeProp(p)).Ok? <==> ReadableTag(sc, p)
    decreases p
  {
    match p
    case Embedded(e) =>
      EntityReads(sc, e);
      TagDecodedByType(sc, Marshal(e));
    case LinkTo(link) => LinkReads(sc, link);
    case _ =>
  }

  lemma LinkReads(sc: Schema, link: Struct)
    requires Sound(sc) && TypedStruct(sc.link, link)
    ensures DecodeTag(sc, EncodeProp(LinkTo(link))).Ok?
  {
    var j := EncodeProp(LinkTo(link));
    LinkReturns(sc, link);
    TagDecodedByType(sc, j.members);
    LinkFieldsRead(sc, link);
    LinkHeaderReads(sc, link);
    assert Decodes(sc, map[], j);
  }

  lemma LinkFieldsRead(sc: Schema, link: Struct)
    requires Sound(sc) && TypedStruct(sc.link, link)
    ensures Decodes(sc, sc.link, EncodeProp(LinkTo(link)))
  {
    var j := EncodeProp(LinkTo(link));
    forall f, k | f in sc.link && k in j.members && Matches(k, f)
      ensures DecodeValue(sc, sc.link[f], j.members[k]).Ok?
    {
      LinkOrigin(sc, link, f, k);
      LinkValueReturns(sc, sc.link[f], link[f]);
    }
  }

  lemma LinkHeaderReads(sc: Schema, link: Struct)
    requires Sound(sc) && TypedStruct(sc.link, link)
    ensures Decodes(sc, sc.header, EncodeProp(LinkTo(link)))
  {
    var j := EncodeProp(LinkTo(link));
    forall f, k | f in sc.header && k in j.members && Matches(k, f)
      ensures DecodeValue(sc, sc.header[f], j.members[k]).Ok?
    {
      LinkReturns(sc, link);
      assert Apart(sc.header, sc.link) && Distinct(sc.header);
      assert k in sc.link ==> !Matches(f, k);
      assert k == "type" && f == "type";
    }
  }

  /** The property is taken for a header field and comes from `additional`. */
  predicate FeedsHeader(sc: Schema, e: Entity, f: string, k: string) {
    f in sc.header && k in e.additional && k !in e.header && Matches(k, f)
  }

  predicate FeedsOwn(sc: Schema, e: Entity, f: string, k: string) {
    f in sc.Fields(e.variant) && k in e.additional && Matches(k, f)
  }

  lemma HeaderPropertyReads(sc: Schema, e: Entity, f: string, k: string)
    requires Sound(sc) && WellFormed(sc, e) && f in sc.header && k in Marshal(e) && Matches(k, f)
    ensures k in e.header ==> k == f && Marshal(e)[k] == EncodeValue(e.header[k])
    ensures k !in e.header ==>
              FeedsHeader(sc, e, f, k) &&
              (DecodeValue(sc, sc.header[f], Marshal(e)[k]).Ok? <==> Accepts(sc, sc.header[f], e.additional[k]))
  {
    HeaderOrigin(sc, e, f, k);
    if k in e.header {
      HeaderAt(sc, e, k);
    } else {
      ReadsExactly(sc, sc.header[f], e.additional[k]);
    }
  }

  lemma HeaderReads(sc: Schema, e: Entity)
    requires Sound(sc) && WellFormed(sc, e)
    requires forall k :: k in e.header ==>
               (DecodeValue(sc, sc.header[k], EncodeValue(e.header[k])).Ok? <==>
                ReadableValue(sc, sc.header[k], e.header[k]))
    ensures Decodes(sc, sc.header, Obj(Marshal(e))) <==>
              && (forall k :: k in e.header ==> ReadableValue(sc, sc.header[k], e.header[k]))
              && forall f, k :: FeedsHeader(sc, e, f, k) ==> Accepts(sc, sc.header[f], e.additional[k])
  {
    var j := Obj(Marshal(e));
    if Decodes(sc, sc.header, j) {
      forall k | k in e.header ensures ReadableValue(sc, sc.header[k], e.header[k]) {
        HeaderAt(sc, e, k);
        assert Matches(k, k);
      }
      forall f, k | FeedsHeader(sc, e, f, k) ensures Accepts(sc, sc.header[f], e.additional[k]) {
        MarshalIsMerge(e);
        HeaderPropertyReads(sc, e, f, k);
      }
    } else {
      var f, k :| f in sc.header && k in j.members && Matches(k, f) && DecodeValue(sc, sc.header[f], j.members[k]).Err?;
      HeaderPropertyReads(sc, e, f, k);
    }
  }

  lemma OwnPropertyReads(sc: Schema, e: Entity, f: string, k: string)
    requires Sound(sc) && WellFormed(sc, e) && f in sc.Fields(e.variant) && k in Marshal(e) && Matches(k, f)
    ensures k !in e.additional ==> k in e.own && k == f && Marshal(e)[k] == EncodeValue(e.own[k])
    ensures k in e.additional ==>
              (DecodeValue(sc, sc.Fields(e.variant)[f], Marshal(e)[k]).Ok? <==>
               Accepts(sc, sc.Fields(e.variant)[f], e.additional[k]))
  {
    OwnOrigin(sc, e, f, k);
    if k in e.additional {
      ReadsExactly(sc, sc.Fields(e.variant)[f], e.additional[k]);
    } else {
      OwnAt(sc, e, k);
    }
  }

  lemma DecodedOwnIsReadable(sc: Schema, e: Entity, own: Table)
    requires Sound(sc) && WellFormed(sc, e) && own == sc.Fields(e.variant)
    requires Decodes(sc, own, Obj(Marshal(e)))
    ensures forall k :: k in e.own && k !in e.additional ==> DecodeValue(sc, own[k], EncodeValue(e.own[k])).Ok?
    ensures forall f, k :: FeedsOwn(sc, e, f, k) ==> Accepts(sc, own[f], e.additional[k])
  {
    forall k | k in e.own && k !in e.additional ensures DecodeValue(sc, own[k], EncodeValue(e.own[k])).Ok? {
      OwnAt(sc, e, k);
      assert Matches(k, k);
    }
    forall f, k | FeedsOwn(sc, e, f, k) ensures Accepts(sc, own[f], e.additional[k]) {
      MarshalIsMerge(e);
      OwnPropertyReads(sc, e, f, k);
    }
  }

  lemma ReadableOwnDecodes(sc: Schema, e: Entity, own: Table)
    requires Sound(sc) && WellFormed(sc, e) && own == sc.Fields(e.variant)
    requires forall k :: k in e.own && k !in e.additional ==> DecodeValue(sc, own[k], EncodeValue(e.own[k])).Ok?
    requires forall f, k :: FeedsOwn(sc, e, f, k) ==> Accepts(sc, own[f], e.additional[k])
    ensures Decodes(sc, own, Obj(Marshal(e)))
  {
    var d := Marshal(e);
    forall f, k | f in own && k in d && Matches(k, f) ensures DecodeValue(sc, own[f], d[k]).Ok? {
      OwnPropertyReads(sc, e, f, k);
      if k in e.additional {
        assert FeedsOwn(sc, e, f, k);
      }
    }
  }

  lemma OwnReads(sc: Schema, e: Entity)
    requires Sound(sc) && WellFormed(sc, e)
    requires forall k :: k in e.own ==>
               (DecodeValue(sc, sc.Fields(e.variant)[k], EncodeValue(e.own[k])).Ok? <==>
                ReadableValue(sc, sc.Fields(e.variant)[k], e.own[k]))
    ensures var own := sc.Fields(e.variant);
            Decodes(sc, own, Obj(Marshal(e))) <==>
              && (forall k :: k in e.own && k !in e.additional ==> ReadableValue(sc, own[k], e.own[k]))
              && forall f, k :: FeedsOwn(sc, e, f, k) ==> Accepts(sc, own[f], e.additional[k])
  {
    var own := sc.Fields(e.variant);
    if Decodes(sc, own, Obj(Marshal(e))) {
      DecodedOwnIsReadable(sc, e, own);
    } else if && (forall k :: k in e.own && k !in e.additional ==> DecodeValue(sc, own[k], EncodeValue(e.own[k])).Ok?)
              && (forall f, k :: FeedsOwn(sc, e, f, k) ==> Accepts(sc, own[f], e.additional[k])) {
      ReadableOwnDecodes(sc, e, own);
    }
  }

  lemma {:induction false} EntityReads(sc: Schema, e: Entity)
    requires Sound(sc) && WellFormed(sc, e)
    ensures Unmarshal(sc, e.variant, Obj(Marshal(e))).Ok? <==> Readable(sc, e)
    decreases e
  {
    forall k | k in e.header
      ensures DecodeValue(sc, sc.header[k], EncodeValue(e.header[k])).Ok? <==>
              ReadableValue(sc, sc.header[k], e.header[k])
    {
      ValueReads(sc, sc.header[k], e.header[k]);
    }
    forall k | k in e.own
      ensures DecodeValue(sc, sc.Fields(e.variant)[k], EncodeValue(e.own[k])).Ok? <==>
              ReadableValue(sc, sc.Fields(e.variant)[k], e.own[k])
    {
      ValueReads(sc, sc.Fields(e.variant)[k], e.own[k]);
    }
    HeaderReads(sc, e);
    OwnReads(sc, e);
  }

  // ---------------------------------------------------------------------------------------------
  // Which values have a document that comes back unchanged

  /** Nothing in `additional` disturbs a struct field: a property that is a field in another case is zero, and
      what stands in for an unreserved header field is zero or as the encoder writes it. Everything inside is
      settled as well. */
  ghost predicate Settled(sc: Schema, e: Entity)
    requires WellFormed(sc, e)
    decreases e
  {
    && (forall k :: k in e.header ==> SettledValue(sc, sc.header[k], e.header[k]))
    && (forall k :: k in e.own && k in sc.reserved ==> SettledValue(sc, sc.Fields(e.variant)[k], e.own[k]))
    && (forall f :: f in sc.header && f in e.additional && f !in e.header ==>
          Zero(sc.header[f], e.additional[f]) || Normal(sc, sc.header[f], e.additional[f]))
    && (forall f, k :: f in sc.header && k in e.additional && k != f && Matches(k, f) ==>
          Zero(sc.header[f], e.additional[k]))
    && forall f, k :: f in sc.Fields(e.variant) && k in e.additional && k != f && Matches(k, f) ==>
         Zero(sc.Fields(e.variant)[f], e.additional[k])
  }

  ghost predicate SettledValue(sc: Schema, kind: Kind, v: Value)
    requires WellFormedValue(sc, kind, v)
    decreases v
  {
    match v
    case Props(props) =>
      forall i :: 0 <= i < |props| ==> if kind.Tags? then SettledTag(sc, props[i]) else SettledProp(sc, props[i])
    case Nested(prop) => SettledProp(sc, prop)
    case _ => true
  }

  ghost predicate SettledProp(sc: Schema, p: Prop)
    requires Classified(sc, p)
    decreases p
  {
    p.Embedded? ==> Settled(sc, p.entity)
  }

  ghost predicate SettledTag(sc: Schema, p: Prop)
    requires IsTag(sc, p)
    decreases p
  {
    p.Embedded? ==> Settled(sc, p.entity)
  }

  /** A well-typed value is not written as zero, and is written in normal form exactly when it is settled. */
  lemma {:induction false} ValueIsNormal(sc: Schema, kind: Kind, v: Value)
    requires Sound(sc) && Typed(kind, v) && WellFormedValue(sc, kind, v) && Unambiguous(sc, EncodeValue(v))
    ensures !Zero(kind, EncodeValue(v))
    ensures Normal(sc, kind, EncodeValue(v)) <==> SettledValue(sc, kind, v)
    decreases v
  {
    match v
    case Strings(list) => NamesReturn(list);
    case UrlList(urls) => UrlsReturn(urls);
    case Props(props) =>
      var j := EncodeValue(v);
      forall i | 0 <= i < |props|
        ensures kind.Objects? ==> (NormalProp(sc, j.elements[i]) <==> SettledProp(sc, props[i]))
        ensures kind.Tags? ==> (NormalTag(sc, j.elements[i]) <==> SettledTag(sc, props[i]))
      {
        assert j.elements[i] == EncodeProp(props[i]);
        if kind.Tags? {
          TagIsNormal(sc, props[i]);
        } else {
          PropIsNormal(sc, props[i]);
        }
      }
    case Nested(prop) => PropIsNormal(sc, prop);
    case _ =>
  }

  lemma {:induction false} PropIsNormal(sc: Schema, p: Prop)
    requires Sound(sc) && Classified(sc, p) && Unambiguous(sc, EncodeProp(p))
    ensures NormalProp(sc, EncodeProp(p)) <==> SettledProp(sc, p)
    decreases p
  {
    if p.Embedded? {
      TypeReturns(sc, p.entity);
      EntityIsNormal(sc, p.entity);
    }
  }

  lemma {:induction false} TagIsNormal(sc: Schema, p: Prop)
    requires Sound(sc) && IsTag(sc, p) && Unambiguous(sc, EncodeProp(p))
    ensures NormalTag(sc, EncodeProp(p)) <==> SettledTag(sc, p)
    decreases p
  {
    match p
    case Embedded(e) => EntityIsNormal(sc, e);
    case LinkTo(link) => LinkIsNormal(sc, link);
    case _ =>
  }

  lemma LinkIsNormal(sc: Schema, link: Struct)
    requires Sound(sc) && TypedStruct(sc.link, link)
    ensures NormalTag(sc, EncodeProp(LinkTo(link)))
  {
    var j := EncodeProp(LinkTo(link));
    LinkReturns(sc, link);
    forall f | f in sc.link && f in j.members
      ensures !Zero(sc.link[f], j.members[f]) && Normal(sc, sc.link[f], j.members[f])
    {
      TypeIsNoLinkField(sc);
      LinkValueReturns(sc, sc.link[f], link[f]);
    }
  }

  lemma OnlySpelling(sc: Schema, e: Entity, f: string, k: string)
    requires Unambiguous(sc, Obj(Marshal(e))) && f in FieldNames(sc)
    requires f in Marshal(e) && k in Marshal(e) && Matches(k, f)
    ensures k == f
  {
    assert Matches(f, f);
    assert IsName(sc, f);
    assert Matches(f, k);
  }

  lemma HeaderFieldIsNormal(sc: Schema, e: Entity, f: string)
    requires Sound(sc) && WellFormed(sc, e) && Unambiguous(sc, Obj(Marshal(e))) && f in sc.header
    requires f in e.header ==>
               !Zero(sc.header[f], EncodeValue(e.header[f])) &&
               (Normal(sc, sc.header[f], EncodeValue(e.header[f])) <==>
                SettledValue(sc, sc.header[f], e.header[f]))
    ensures NormalField(sc, sc.header[f], Obj(Marshal(e)), f, false) <==>
              && (f in e.header ==> SettledValue(sc, sc.header[f], e.header[f]))
              && (f in e.additional && f !in e.header ==>
                    Zero(sc.header[f], e.additional[f]) || Normal(sc, sc.header[f], e.additional[f]))
              && forall k :: k in e.additional && k != f && Matches(k, f) ==> Zero(sc.header[f], e.additional[k])
  {
    var d := Marshal(e);
    forall k | k in e.additional && k != f && Matches(k, f)
      ensures k in d && d[k] == e.additional[k] && f !in d && KeyOf(d, f) == Some(k)
    {
      AdditionalSpelling(sc, e, f, k);
    }
    if f in e.header {
      HeaderAt(sc, e, f);
    } else {
      var key := KeyOf(d, f);
      if key.Some? {
        HeaderOrigin(sc, e, f, key.value);
      }
      if f in e.additional {
        MarshalIsMerge(e);
        assert Matches(f, f);
        HeaderOrigin(sc, e, f, f);
      }
    }
  }

  /** If a field is given in another case, it is given in no other way. */
  lemma AdditionalSpelling(sc: Schema, e: Entity, f: string, k: string)
    requires Sound(sc) && WellFormed(sc, e) && Unambiguous(sc, Obj(Marshal(e)))
    requires f in sc.header || f in sc.Fields(e.variant)
    requires k in e.additional && k != f && Matches(k, f)
    ensures var d := Marshal(e);
            k in d && d[k] == e.additional[k] && f !in d && KeyOf(d, f) == Some(k)
  {
    var d := Marshal(e);
    assert f in FieldNames(sc);
    MarshalIsMerge(e);
    assert k in d;
    if f in d {
      OnlySpelling(sc, e, f, k);
    }
    if f in sc.header {
      HeaderOrigin(sc, e, f, k);
    } else {
      OwnOrigin(sc, e, f, k);
    }
    var key := KeyOf(d, f);
    assert Matches(key.value, k) && IsName(sc, k);
  }

  lemma OwnFieldIsNormal(sc: Schema, e: Entity, f: string)
    requires Sound(sc) && WellFormed(sc, e) && Unambiguous(sc, Obj(Marshal(e))) && f in sc.Fields(e.variant)
    requires f in e.own && f !in e.additional ==>
               !Zero(sc.Fields(e.variant)[f], EncodeValue(e.own[f])) &&
               (Normal(sc, sc.Fields(e.variant)[f], EncodeValue(e.own[f])) <==>
                SettledValue(sc, sc.Fields(e.variant)[f], e.own[f]))
    ensures var kind := sc.Fields(e.variant)[f];
            NormalField(sc, kind, Obj(Marshal(e)), f, true) <==>
              && (f in e.own && f in sc.reserved ==> SettledValue(sc, kind, e.own[f]))
              && forall k :: k in e.additional && k != f && Matches(k, f) ==> Zero(kind, e.additional[k])
  {
    var d := Marshal(e);
    forall k | k in e.additional && k != f && Matches(k, f)
      ensures k in d && d[k] == e.additional[k] && f !in d && KeyOf(d, f) == Some(k)
    {
      AdditionalSpelling(sc, e, f, k);
    }
    if f in e.own && f !in e.additional {
      OwnAt(sc, e, f);
    } else {
      MarshalIsMerge(e);
      var key := KeyOf(d, f);
      if key.Some? {
        OwnOrigin(sc, e, f, key.value);
      }
    }
  }

  lemma UnambiguousInside(sc: Schema, e: Entity, f: string)
    requires Unambiguous(sc, Obj(Marshal(e))) && f in FieldNames(sc) && f in Marshal(e)
    ensures Unambiguous(sc, Marshal(e)[f])
  {
    assert Matches(f, f);
    assert IsName(sc, f);
  }

  lemma {:induction false} HeaderFieldSettles(sc: Schema, e: Entity, f: string)
    requires Sound(sc) && WellFormed(sc, e) && Unambiguous(sc, Obj(Marshal(e))) && f in sc.header
    ensures NormalField(sc, sc.header[f], Obj(Marshal(e)), f, false) <==> SettledHeaderField(sc, e, f)
    decreases e, 0
  {
    if f in e.header {
      HeaderAt(sc, e, f);
      UnambiguousInside(sc, e, f);
      ValueIsNormal(sc, sc.header[f], e.header[f]);
    }
    HeaderFieldIsNormal(sc, e, f);
  }

  lemma {:induction false} OwnFieldSettles(sc: Schema, e: Entity, f: string)
    requires Sound(sc) && WellFormed(sc, e) && Unambiguous(sc, Obj(Marshal(e))) && f in sc.Fields(e.variant)
    ensures NormalField(sc, sc.Fields(e.variant)[f], Obj(Marshal(e)), f, true) <==> SettledOwnField(sc, e, f)
    decreases e, 0
  {
    if f in e.own && f !in e.additional {
      OwnAt(sc, e, f);
      UnambiguousInside(sc, e, f);
      ValueIsNormal(sc, sc.Fields(e.variant)[f], e.own[f]);
    }
    OwnFieldIsNormal(sc, e, f);
  }

  lemma {:induction false} EntityIsNormal(sc: Schema, e: Entity)
    requires Sound(sc) && WellFormed(sc, e) && Unambiguous(sc, Obj(Marshal(e)))
    ensures NormalObject(sc, e.variant, Obj(Marshal(e))) <==> Settled(sc, e)
    decreases e, 1
  {
    forall f | f in sc.header
      ensures NormalField(sc, sc.header[f], Obj(Marshal(e)), f, false) <==> SettledHeaderField(sc, e, f)
    {
      HeaderFieldSettles(sc, e, f);
    }
    forall f | f in sc.Fields(e.variant)
      ensures NormalField(sc, sc.Fields(e.variant)[f], Obj(Marshal(e)), f, true) <==> SettledOwnField(sc, e, f)
    {
      OwnFieldSettles(sc, e, f);
    }
    ReservedAreFields(sc, e);
    SettledByFields(sc, e);
  }

  ghost predicate SettledHeaderField(sc: Schema, e: Entity, f: string)
    requires WellFormed(sc, e) && f in sc.header
  {
    && (f in e.header ==> SettledValue(sc, sc.header[f], e.header[f]))
    && (f in e.additional && f !in e.header ==>
          Zero(sc.header[f], e.additional[f]) || Normal(sc, sc.header[f], e.additional[f]))
    && forall k :: k in e.additional && k != f && Matches(k, f) ==> Zero(sc.header[f], e.additional[k])
  }

  ghost predicate SettledOwnField(sc: Schema, e: Entity, f: string)
    requires WellFormed(sc, e) && f in sc.Fields(e.variant)
  {
    var kind := sc.Fields(e.variant)[f];
    && (f in e.own && f in sc.reserved ==> SettledValue(sc, kind, e.own[f]))
    && forall k :: k in e.additional && k != f && Matches(k, f) ==> Zero(kind, e.additional[k])
  }

  lemma SettledByFields(sc: Schema, e: Entity)
    requires WellFormed(sc, e)
    ensures Settled(sc, e) <==>
              && (forall f :: f in sc.header ==> SettledHeaderField(sc, e, f))
              && (forall f :: f in sc.Fields(e.variant) ==> SettledOwnField(sc, e, f))
  {
  }

  lemma ReservedAreFields(sc: Schema, e: Entity)
    requires WellFormed(sc, e)
    ensures forall k :: k in Marshal(e) && k in sc.reserved ==> k in sc.header || k in sc.Fields(e.variant)
  {
    MarshalIsMerge(e);
  }
}
