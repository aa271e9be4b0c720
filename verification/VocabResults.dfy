/** The results about the ActivityStreams vocabulary (pkg/activitypub/vocab): the field tables of the code are
    sound, so what holds of sound tables holds of them. */
module VocabResults {
  import opened Common
  import opened Vocab
  import opened VocabShapes
  import opened VocabRoundTrip

  // ---------------------------------------------------------------------------------------------
  // The field tables

  /** The field a folded name stands for. */
  function Unfold(s: string): string {
    if s == "starttime" then "startTime"
    else if s == "endtime" then "endTime"
    else if s == "inreplyto" then "inReplyTo"
    else if s == "attributedto" then "attributedTo"
    else if s == "totalitems" then "totalItems"
    else if s == "ordereditems" then "orderedItems"
    else s
  }

  lemma FoldLower(s: string)
    requires forall c :: c in s ==> FoldChar(c) == c
    ensures Fold(s) == s
  {
  }

  lemma FoldConcat(a: string, b: string)
    ensures Fold(a + b) == Fold(a) + Fold(b)
  {
  }

  lemma FoldCamel(a: string, c: char, b: string)
    requires forall x :: x in a || x in b ==> FoldChar(x) == x
    ensures Fold(a + [c] + b) == a + [FoldChar(c)] + b
  {
    FoldConcat(a + [c], b);
    FoldConcat(a, [c]);
    FoldLower(a);
    FoldLower(b);
    assert Fold([c]) == [FoldChar(c)];
  }

  /** Every field of the table can be told from its folded name. */
  predicate Unfolds(fields: Table) {
    forall f :: f in fields ==> UnfoldsTo(f)
  }

  lemma ReplyTo()
    ensures Fold("inReplyTo") == "inreplyto"
  {
    FoldCamel("in", 'R', "eply");
    FoldCamel("", 'T', "o");
    FoldConcat("in" + ['R'] + "eply", "" + ['T'] + "o");
    assert "inReplyTo" == ("in" + ['R'] + "eply") + ("" + ['T'] + "o");
    assert "inreplyto" == ("in" + ['r'] + "eply") + ("" + ['t'] + "o");
  }

  lemma CamelNames()
    ensures Fold("startTime") == "starttime" && Fold("endTime") == "endtime"
    ensures Fold("attributedTo") == "attributedto"
  {
    FoldCamel("start", 'T', "ime");
    assert "startTime" == "start" + ['T'] + "ime" && "start" + ['t'] + "ime" == "starttime";
    FoldCamel("end", 'T', "ime");
    assert "endTime" == "end" + ['T'] + "ime" && "end" + ['t'] + "ime" == "endtime";
    FoldCamel("attributed", 'T', "o");
    assert "attributedTo" == "attributed" + ['T'] + "o" && "attributed" + ['t'] + "o" == "attributedto";
  }

  lemma ItemNames()
    ensures Fold("totalItems") == "totalitems" && Fold("orderedItems") == "ordereditems"
  {
    FoldCamel("total", 'I', "tems");
    assert "totalItems" == "total" + ['I'] + "tems" && "total" + ['i'] + "tems" == "totalitems";
    FoldCamel("ordered", 'I', "tems");
    assert "orderedItems" == "ordered" + ['I'] + "tems" && "ordered" + ['i'] + "tems" == "ordereditems";
  }

  /** The field can be told from its folded name. */
  predicate UnfoldsTo(f: string) {
    Unfold(Fold(f)) == f
  }

  lemma LowerNames()
    ensures UnfoldsTo("@context") && UnfoldsTo("id") && UnfoldsTo("url") && UnfoldsTo("type") && UnfoldsTo("to")
  {
    FoldLower("@context");
    FoldLower("id");
    FoldLower("url");
    FoldLower("type");
    FoldLower("to");
  }

  lemma MoreLowerNames()
    ensures UnfoldsTo("published") && UnfoldsTo("cid") && UnfoldsTo("attachment") && UnfoldsTo("generator")
    ensures UnfoldsTo("tag")
  {
    FoldLower("published");
    FoldLower("cid");
    FoldLower("attachment");
    FoldLower("generator");
    FoldLower("tag");
  }

  lemma CamelNamesUnfold()
    ensures UnfoldsTo("startTime") && UnfoldsTo("endTime") && UnfoldsTo("attributedTo") && UnfoldsTo("inReplyTo")
  {
    CamelNames();
    ReplyTo();
  }

  lemma HeaderUnfolds()
    ensures Unfolds(HEADER)
  {
    LowerNames();
    MoreLowerNames();
    CamelNamesUnfold();
    HeaderNames(UnfoldsTo);
  }

  /** What holds of these names holds of every header field. */
  lemma HeaderNames(p: string -> bool)
    requires p("@context") && p("id") && p("url") && p("type") && p("to") && p("published") && p("cid")
    requires p("attachment") && p("generator") && p("tag")
    requires p("startTime") && p("endTime") && p("attributedTo") && p("inReplyTo")
    ensures forall f :: f in HEADER ==> p(f)
  {
  }

  lemma CollectionUnfolds()
    ensures Unfolds(COLLECTION)
  {
    ItemNames();
    FoldLower("current");
    FoldLower("first");
    FoldLower("last");
    FoldLower("items");
    assert UnfoldsTo("current") && UnfoldsTo("first") && UnfoldsTo("last") && UnfoldsTo("items");
    CollectionNames(UnfoldsTo);
  }

  lemma CollectionNames(p: string -> bool)
    requires p("current") && p("first") && p("last") && p("items") && p("totalItems")
    ensures forall f :: f in COLLECTION ==> p(f)
  {
  }

  lemma OrderedUnfolds()
    ensures Unfolds(ORDERED)
  {
    ItemNames();
    CollectionUnfolds();
  }

  lemma ActivityUnfolds()
    ensures Unfolds(ACTIVITY)
  {
    FoldLower("actor");
    FoldLower("target");
    FoldLower("object");
    FoldLower("result");
    assert UnfoldsTo("actor") && UnfoldsTo("target") && UnfoldsTo("object") && UnfoldsTo("result");
    ActivityNames(UnfoldsTo);
  }

  lemma ActivityNames(p: string -> bool)
    requires p("actor") && p("target") && p("object") && p("result")
    ensures forall f :: f in ACTIVITY ==> p(f)
  {
  }

  lemma SmallTablesUnfold()
    ensures Unfolds(ANCHOR_EVENT) && Unfolds(LINK)
  {
    FoldLower("object");
    FoldLower("href");
    FoldLower("rel");
  }

  lemma DistinctByUnfolding(fields: Table)
    requires Unfolds(fields)
    ensures Distinct(fields)
  {
    assert forall f :: f in fields ==> UnfoldsTo(f);
  }

  lemma ApartByUnfolding(fields: Table, others: Table)
    requires Unfolds(fields) && Unfolds(others) && fields.Keys !! others.Keys
    ensures Apart(fields, others)
  {
  }

  lemma HeaderApartFromCollections()
    ensures HEADER.Keys !! COLLECTION.Keys && HEADER.Keys !! ORDERED.Keys
  {
    HeaderNames(f => f !in COLLECTION);
    assert forall f :: f in HEADER ==> f !in COLLECTION;
    HeaderNames(f => f != "orderedItems");
    assert forall f :: f in HEADER ==> f != "orderedItems";
  }

  lemma HeaderApartFromActivities()
    ensures HEADER.Keys !! ACTIVITY.Keys && HEADER.Keys !! ANCHOR_EVENT.Keys
  {
    HeaderNames(f => f !in ACTIVITY);
    assert forall f :: f in HEADER ==> f !in ACTIVITY;
    assert ANCHOR_EVENT.Keys <= ACTIVITY.Keys;
  }

  lemma HeaderApartFromLink()
    ensures HEADER.Keys !! LINK.Keys
  {
    HeaderNames(f => f !in LINK);
    assert forall f :: f in HEADER ==> f !in LINK;
  }

  lemma FieldsUnfold(v: Variant)
    ensures Unfolds(VOCABULARY.Fields(v))
  {
    match v
    case ObjectVariant =>
    case CollectionVariant => CollectionUnfolds();
    case OrderedVariant => OrderedUnfolds();
    case ActivityVariant => ActivityUnfolds();
    case AnchorEventVariant => SmallTablesUnfold();
  }

  lemma HeaderApartFromFields(v: Variant)
    ensures HEADER.Keys !! VOCABULARY.Fields(v).Keys
  {
    match v
    case ObjectVariant =>
    case CollectionVariant => HeaderApartFromCollections();
    case OrderedVariant => HeaderApartFromCollections();
    case ActivityVariant => HeaderApartFromActivities();
    case AnchorEventVariant => HeaderApartFromActivities();
  }

  /** The fields of a variant can be told from each other and from the header. */
  lemma FieldsAreDistinct(v: Variant)
    ensures Distinct(VOCABULARY.Fields(v)) && Apart(HEADER, VOCABULARY.Fields(v))
  {
    HeaderUnfolds();
    FieldsUnfold(v);
    HeaderApartFromFields(v);
    DistinctByUnfolding(VOCABULARY.Fields(v));
    ApartByUnfolding(HEADER, VOCABULARY.Fields(v));
  }

  lemma CountsAreReserved(v: Variant, f: string)
    requires f in VOCABULARY.Fields(v) && VOCABULARY.Fields(v)[f].Count?
    ensures f in RESERVED
  {
  }

  lemma HeaderKinds()
    ensures "type" in HEADER && HEADER["type"] == Names
    ensures forall f :: f in HEADER ==> !HEADER[f].Count?
    ensures forall f :: f in LINK ==> LINK[f].Text? || LINK[f].Relations?
  {
  }

  lemma VocabularyIsSound()
    ensures Sound(VOCABULARY)
  {
    HeaderKinds();
    HeaderUnfolds();
    SmallTablesUnfold();
    HeaderApartFromLink();
    DistinctByUnfolding(HEADER);
    DistinctByUnfolding(LINK);
    ApartByUnfolding(HEADER, LINK);
    SoundByParts(VOCABULARY);
  }

  lemma SoundByParts(sc: Schema)
    requires sc == VOCABULARY
    requires "type" in sc.header && sc.header["type"] == Names
    requires Distinct(sc.header) && Distinct(sc.link) && Apart(sc.header, sc.link)
    requires forall f :: f in sc.header ==> !sc.header[f].Count?
    requires forall f :: f in sc.link ==> sc.link[f].Text? || sc.link[f].Relations?
    ensures Sound(sc)
  {
    forall v ensures Distinct(sc.Fields(v)) && Apart(sc.header, sc.Fields(v)) {
      FieldsAreDistinct(v);
    }
    forall v, f | f in sc.Fields(v) && sc.Fields(v)[f].Count? ensures f in sc.reserved {
      CountsAreReserved(v, f);
    }
  }

  // ---------------------------------------------------------------------------------------------
  // Main results

  /** Unmarshalling any document leaves no reserved property in `additional`, and keeps all others. */
  lemma UnmarshalRemovesReserved(v: Variant, j: Json)
    requires Unmarshal(VOCABULARY, v, j).Ok?
    ensures NoReserved(VOCABULARY, Unmarshal(VOCABULARY, v, j).value.additional)
    ensures forall k :: k in j.members && k !in RESERVED ==>
              k in Unmarshal(VOCABULARY, v, j).value.additional &&
              Unmarshal(VOCABULARY, v, j).value.additional[k] == j.members[k]
  {
  }

  /** The documents that come back unchanged: for every variant and every document that can be read and gives
      no field twice, exactly the normal ones. */
  lemma FixedPoints(v: Variant, d: Document)
    requires Unambiguous(VOCABULARY, Obj(d)) && Unmarshal(VOCABULARY, v, Obj(d)).Ok?
    ensures Marshal(Unmarshal(VOCABULARY, v, Obj(d)).value) == d <==> NormalObject(VOCABULARY, v, Obj(d))
  {
    VocabularyIsSound();
    ObjectComesBack(VOCABULARY, v, Obj(d));
  }

  /** Re-marshal stability: for every well-formed object, activity, collection, ordered collection or anchor
      event whose document gives no field twice, the document can be unmarshalled exactly when the value is
      readable, and then marshalling the result gives the same document exactly when the value is settled. */
  lemma RemarshalIsStable(e: Entity)
    requires WellFormed(VOCABULARY, e) && Unambiguous(VOCABULARY, Obj(Marshal(e)))
    ensures Unmarshal(VOCABULARY, e.variant, Obj(Marshal(e))).Ok? <==> Readable(VOCABULARY, e)
    ensures Readable(VOCABULARY, e) ==>
              var f := Unmarshal(VOCABULARY, e.variant, Obj(Marshal(e))).value;
              && (Marshal(f) == Marshal(e) <==> Settled(VOCABULARY, e))
              && NoReserved(VOCABULARY, f.additional)
  {
    VocabularyIsSound();
    EntityReads(VOCABULARY, e);
    if Readable(VOCABULARY, e) {
      EntityIsNormal(VOCABULARY, e);
      FixedPoints(e.variant, Marshal(e));
      UnmarshalRemovesReserved(e.variant, Obj(Marshal(e)));
    }
  }

  /** Variant round trip: a property can be read back exactly when it is readable, and then comes back as the
      variant it was, with the same typed fields, through any nesting of activities, collections and anchor
      events; its JSON is the same exactly when it is settled. */
  lemma VariantRoundTrip(p: Prop)
    requires Classified(VOCABULARY, p) && Unambiguous(VOCABULARY, EncodeProp(p))
    ensures DecodeProp(VOCABULARY, EncodeProp(p)).Ok? <==> ReadableProp(VOCABULARY, p)
    ensures ReadableProp(VOCABULARY, p) ==>
              var q := DecodeProp(VOCABULARY, EncodeProp(p)).value;
              SimilarProp(p, q) && (EncodeProp(q) == EncodeProp(p) <==> SettledProp(VOCABULARY, p))
  {
    VocabularyIsSound();
    PropReads(VOCABULARY, p);
    if ReadableProp(VOCABULARY, p) {
      PropReturns(VOCABULARY, p);
      PropComesBack(VOCABULARY, EncodeProp(p));
      PropIsNormal(VOCABULARY, p);
    }
  }

  // ---------------------------------------------------------------------------------------------
  // A simple condition

  /** No property of `additional`, here or inside, is taken for a field of its value. */
  ghost predicate Undisturbed(sc: Schema, e: Entity)
    decreases e
  {
    && (forall k, f :: k in e.additional && Matches(k, f) ==> f !in sc.header && f !in sc.Fields(e.variant))
    && (forall k :: k in e.header ==> UndisturbedValue(sc, e.header[k]))
    && forall k :: k in e.own ==> UndisturbedValue(sc, e.own[k])
  }

  ghost predicate UndisturbedValue(sc: Schema, v: Value)
    decreases v
  {
    match v
    case Props(props) => forall i :: 0 <= i < |props| ==> UndisturbedProp(sc, props[i])
    case Nested(prop) => UndisturbedProp(sc, prop)
    case _ => true
  }

  ghost predicate UndisturbedProp(sc: Schema, p: Prop)
    decreases p
  {
    p.Embedded? ==> Undisturbed(sc, p.entity)
  }

  lemma {:induction false} UndisturbedIsSettled(sc: Schema, e: Entity)
    requires Sound(sc) && WellFormed(sc, e) && Undisturbed(sc, e)
    ensures Settled(sc, e)
    decreases e
  {
    forall k | k in e.header ensures SettledValue(sc, sc.header[k], e.header[k]) {
      UndisturbedValueIsSettled(sc, sc.header[k], e.header[k]);
    }
    forall k | k in e.own ensures SettledValue(sc, sc.Fields(e.variant)[k], e.own[k]) {
      UndisturbedValueIsSettled(sc, sc.Fields(e.variant)[k], e.own[k]);
    }
    forall f | f in sc.header ensures f !in e.additional {
      assert Matches(f, f);
    }
  }

  lemma {:induction false} UndisturbedValueIsSettled(sc: Schema, kind: Kind, v: Value)
    requires Sound(sc) && WellFormedValue(sc, kind, v) && UndisturbedValue(sc, v)
    ensures SettledValue(sc, kind, v)
    decreases v
  {
    match v
    case Props(props) =>
      forall i | 0 <= i < |props| && props[i].Embedded? ensures Settled(sc, props[i].entity) {
        UndisturbedIsSettled(sc, props[i].entity);
      }
    case Nested(prop) =>
      if prop.Embedded? {
        UndisturbedIsSettled(sc, prop.entity);
      }
    case _ =>
  }

  // ---------------------------------------------------------------------------------------------
  // What goes wrong otherwise

  /** An object with nothing but one additional property. */
  function Bare(k: string, j: Json): Entity {
    Entity(ObjectVariant, map[], map[], map[k := j])
  }

  lemma BareIsWellFormed(sc: Schema, k: string, j: Json)
    requires Sound(sc) && k !in sc.reserved && Unambiguous(sc, j)
    ensures WellFormed(sc, Bare(k, j)) && Marshal(Bare(k, j)) == map[k := j]
    ensures Unambiguous(sc, Obj(map[k := j]))
  {
    var e := Bare(k, j);
    MarshalIsMerge(e);
    assert TypedStruct(sc.header, e.header);
    assert TypedStruct(sc.Fields(e.variant), e.own);
  }

  /** A property that is a field in another case, and not zero, comes back under the name of the field too. */
  lemma OtherCaseGainsAField(sc: Schema, f: string, k: string, j: Json)
    requires Sound(sc) && f in sc.header && k != f && Matches(k, f) && k !in sc.reserved
    requires Unambiguous(sc, j) && Accepts(sc, sc.header[f], j) && !Zero(sc.header[f], j)
    ensures WellFormed(sc, Bare(k, j)) && Unambiguous(sc, Obj(Marshal(Bare(k, j)))) && !Settled(sc, Bare(k, j))
    ensures Unmarshal(sc, ObjectVariant, Obj(map[k := j])).Ok?
    ensures f in Marshal(Unmarshal(sc, ObjectVariant, Obj(map[k := j])).value)
  {
    BareIsWellFormed(sc, k, j);
    BareReads(sc, f, k, j);
    var d := Obj(map[k := j]);
    ValueComesBack(sc, sc.header[f], j);
    DecodedAt(sc, sc.header, d, f);
    ReturnedAt(sc, ObjectVariant, d, f);
  }

  lemma BareReads(sc: Schema, f: string, k: string, j: Json)
    requires Sound(sc) && f in sc.header && k != f && Matches(k, f) && Accepts(sc, sc.header[f], j)
    ensures Decodes(sc, sc.header, Obj(map[k := j])) && Decodes(sc, map[], Obj(map[k := j]))
    ensures KeyOf(map[k := j], f) == Some(k) && DecodeValue(sc, sc.header[f], j).Ok?
  {
    var d := Obj(map[k := j]);
    ReadsExactly(sc, sc.header[f], j);
    forall g, l | g in sc.header && l in d.members && Matches(l, g)
      ensures DecodeValue(sc, sc.header[g], d.members[l]).Ok?
    {
      assert l == k && Matches(g, f);
    }
  }

  /** For instance "Id", of which the code makes an "id" as well. */
  lemma CapitalIdGainsAnId(x: string)
    ensures WellFormed(VOCABULARY, Bare("Id", Str(x)))
    ensures Unambiguous(VOCABULARY, Obj(Marshal(Bare("Id", Str(x)))))
    ensures Unmarshal(VOCABULARY, ObjectVariant, Obj(map["Id" := Str(x)])).Ok?
    ensures "id" in Marshal(Unmarshal(VOCABULARY, ObjectVariant, Obj(map["Id" := Str(x)])).value)
  {
    VocabularyIsSound();
    IdIsAField();
    OtherCaseGainsAField(VOCABULARY, "id", "Id", Str(x));
  }

  lemma IdIsAField()
    ensures "id" in HEADER && HEADER["id"] == Text && "Id" !in RESERVED && Matches("Id", "id")
  {
    FoldCamel("", 'I', "d");
    assert "Id" == "" + ['I'] + "d" && "id" == "" + ['i'] + "d";
    FoldLower("id");
  }

  /** A document typed in another case comes back as what the type says. */
  lemma CapitalTypeIsAType(t: string)
    ensures TypeNames(map["Type" := Str(t)]) == Some([t])
    ensures !Classified(VOCABULARY, Doc(map["Type" := Str(t)]))
  {
    FoldCamel("", 'T', "ype");
    assert "Type" == "" + ['T'] + "ype" && "type" == "" + ['t'] + "ype";
    FoldLower("type");
    assert Matches("Type", "type");
    var d := map["Type" := Str(t)];
    assert "type" !in d && KeyOf(d, "type") == Some("Type");
  }

  /** An additional property that stands in for an unreserved field must have the shape of that field. */
  lemma WrongShapeCannotBeReadBack(sc: Schema, f: string, j: Json)
    requires Sound(sc) && f in sc.header && f !in sc.reserved && Unambiguous(sc, j)
    requires !Accepts(sc, sc.header[f], j)
    ensures WellFormed(sc, Bare(f, j)) && !Readable(sc, Bare(f, j))
    ensures Unmarshal(sc, ObjectVariant, Obj(map[f := j])).Err?
  {
    BareIsWellFormed(sc, f, j);
    var e := Bare(f, j);
    assert FeedsHeader(sc, e, f, f);
    EntityReads(sc, e);
  }

  /** For instance a number under `cid`, which is a text field but not a reserved property. */
  lemma NumericCidCannotBeReadBack(n: int)
    ensures WellFormed(VOCABULARY, Bare("cid", Num(n)))
    ensures Unmarshal(VOCABULARY, ObjectVariant, Obj(map["cid" := Num(n)])).Err?
  {
    VocabularyIsSound();
    CidIsPlainText();
    WrongShapeCannotBeReadBack(VOCABULARY, "cid", Num(n));
  }

  lemma CidIsPlainText()
    ensures "cid" in HEADER && HEADER["cid"] == PlainText && "cid" !in RESERVED
  {
  }

  /** The classification matters: a plain object whose type says it is a collection comes back as a
      collection, and its document has gained a count it did not have. */
  lemma MisclassifiedObjectGainsACount(e: Entity)
    requires WellFormed(VOCABULARY, e) && e.variant.ObjectVariant? && "type" in e.header
    requires "Collection" in Types(e) && DecodeProp(VOCABULARY, Obj(Marshal(e))).Ok?
    ensures Unmarshal(VOCABULARY, CollectionVariant, Obj(Marshal(e))).Ok?
    ensures var f := Unmarshal(VOCABULARY, CollectionVariant, Obj(Marshal(e))).value;
            && DecodeProp(VOCABULARY, Obj(Marshal(e))).value == Embedded(f)
            && "totalItems" !in Marshal(e)
            && "totalItems" in Marshal(f)
  {
    VocabularyIsSound();
    CountIsACollectionField();
    GainsACount(VOCABULARY, e, "totalItems");
  }

  lemma CountIsACollectionField()
    ensures "totalItems" !in HEADER && "totalItems" in RESERVED
    ensures "totalItems" in COLLECTION && COLLECTION["totalItems"] == Count
  {
  }

  lemma GainsACount(sc: Schema, e: Entity, count: string)
    requires Sound(sc) && WellFormed(sc, e) && e.variant.ObjectVariant? && "type" in e.header
    requires "Collection" in Types(e) && DecodeProp(sc, Obj(Marshal(e))).Ok?
    requires count !in sc.header && count in sc.reserved
    requires count in sc.collection && sc.collection[count] == Count
    ensures Unmarshal(sc, CollectionVariant, Obj(Marshal(e))).Ok?
    ensures var f := Unmarshal(sc, CollectionVariant, Obj(Marshal(e))).value;
            && DecodeProp(sc, Obj(Marshal(e))).value == Embedded(f)
            && count !in Marshal(e) && count in Marshal(f)
  {
    var j := Obj(Marshal(e));
    TypeReturns(sc, e);
    DecodedByType(sc, Marshal(e));
    MarshalIsMerge(e);
    DecodedAt(sc, sc.collection, j, count);
    ReturnedAt(sc, CollectionVariant, j, count);
  }
}
