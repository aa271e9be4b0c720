/** Which JSON the ActivityStreams codec (pkg/activitypub/vocab) reads, and which it gives back unchanged, said
    by the shape of the JSON and proved of the decoder and encoder. */
module VocabShapes {
  import opened Common
  import opened Vocab

  // ---------------------------------------------------------------------------------------------
  // Field tables

  /** No property is taken for two fields. */
  ghost predicate Distinct(fields: Table) {
    forall f, g :: f in fields && g in fields && Matches(f, g) ==> f == g
  }

  ghost predicate Apart(fields: Table, others: Table) {
    forall f, g :: f in fields && g in others ==> !Matches(f, g)
  }

  /** What the results need of the tables: a property belongs to at most one field, the type is a list of
      names, a count is a reserved field outside the header, and a link holds text only. */
  ghost predicate Sound(sc: Schema) {
    && "type" in sc.header && sc.header["type"] == Names
    && Distinct(sc.header) && Distinct(sc.link) && Apart(sc.header, sc.link)
    && (forall v :: Distinct(sc.Fields(v)) && Apart(sc.header, sc.Fields(v)))
    && (forall f :: f in sc.header ==> !sc.header[f].Count?)
    && (forall f :: f in sc.link ==> sc.link[f].Text? || sc.link[f].Relations?)
    && forall v, f :: f in sc.Fields(v) && sc.Fields(v)[f].Count? ==> f in sc.reserved
  }

  // ---------------------------------------------------------------------------------------------
  // The type of a document

  /** The names a document gives as its type, if it has one. */
  ghost function TypeNames(d: Document): Option<seq<string>> {
    var key := KeyOf(d, "type");
    if key.None? then None
    else match d[key.value]
      case Null => None
      case Str(s) => Some([s])
      case Arr(elements) => Some(TextsIn(elements))
      case _ => Some([])
  }

  ghost function VariantOf(d: Document): Variant {
    if TypeNames(d).None? then ObjectVariant else Classify(TypeNames(d).value)
  }

  ghost predicate IsLink(d: Document) {
    TypeNames(d).Some? && "Link" in TypeNames(d).value
  }

  lemma TypeShape(sc: Schema, d: Document)
    requires Sound(sc) && Unmarshal(sc, ObjectVariant, Obj(d)).Ok?
    ensures var o := Unmarshal(sc, ObjectVariant, Obj(d)).value;
            && ("type" in o.header <==> TypeNames(d).Some?)
            && (TypeNames(d).Some? ==> Types(o) == TypeNames(d).value)
            && (TypeNames(d).None? ==> Types(o) == [])
  {
    var h := DecodeStruct(sc, sc.header, Obj(d));
    assert "type" in h <==> DecodeField(sc, Names, Obj(d), "type").Some?;
  }

  lemma VariantReadsAsObject(sc: Schema, v: Variant, j: Json)
    requires Unmarshal(sc, v, j).Ok?
    ensures Unmarshal(sc, ObjectVariant, j).Ok?
  {
    assert Decodes(sc, map[], j);
  }

  /** How an object decodes, by its type. */
  lemma DecodedByType(sc: Schema, d: Document)
    requires Sound(sc)
    ensures var r := Unmarshal(sc, VariantOf(d), Obj(d));
            DecodeProp(sc, Obj(d)) ==
            (if r.Err? then Err(()) else if TypeNames(d).None? then Ok(Doc(d)) else Ok(Embedded(r.value)))
  {
    var j := Obj(d);
    if Unmarshal(sc, ObjectVariant, j).Ok? {
      TypeShape(sc, d);
    } else if Unmarshal(sc, VariantOf(d), j).Ok? {
      VariantReadsAsObject(sc, VariantOf(d), j);
    }
  }

  lemma TagDecodedByType(sc: Schema, d: Document)
    requires Sound(sc)
    ensures var r := Unmarshal(sc, ObjectVariant, Obj(d));
            DecodeTag(sc, Obj(d)) ==
            (if r.Err? then Err(()) else if !IsLink(d) then Ok(Embedded(r.value))
             else if Decodes(sc, sc.link, Obj(d)) then Ok(LinkTo(DecodeStruct(sc, sc.link, Obj(d))))
             else Err(()))
  {
    if Unmarshal(sc, ObjectVariant, Obj(d)).Ok? {
      TypeShape(sc, d);
    }
  }

  // ---------------------------------------------------------------------------------------------
  // What can be read

  ghost predicate Accepts(sc: Schema, kind: Kind, j: Json)
    decreases j, 2
  {
    j.Null? ||
    match kind
    case Names => j.Str? || IsTextArray(j)
    case Urls => j.Str? || IsTextArray(j)
    case Text => j.Str?
    case PlainText => j.Str?
    case Count => j.Num?
    case Objects => j.Arr? && forall i :: 0 <= i < |j.elements| ==> AcceptsProp(sc, j.elements[i])
    case Object => AcceptsProp(sc, j)
    case Tags => j.Arr? && forall i :: 0 <= i < |j.elements| ==> AcceptsTag(sc, j.elements[i])
    case Relations => IsTextArray(j)
  }

  /** Null, an IRI, or an object whose properties fit the header and the fields of its type. */
  ghost predicate AcceptsProp(sc: Schema, j: Json)
    decreases j, 1
  {
    j.Null? || j.Str? ||
    (j.Obj? && AcceptsFields(sc, sc.header, j) && AcceptsFields(sc, sc.Fields(VariantOf(j.members)), j))
  }

  ghost predicate AcceptsTag(sc: Schema, j: Json)
    decreases j, 1
  {
    j.Null? ||
    (j.Obj? && AcceptsFields(sc, sc.header, j) && (IsLink(j.members) ==> AcceptsFields(sc, sc.link, j)))
  }

  ghost predicate AcceptsFields(sc: Schema, fields: Table, j: Json)
    requires j.Obj?
    decreases j, 0
  {
    forall f, k :: f in fields && k in j.members && Matches(k, f) ==> Accepts(sc, fields[f], j.members[k])
  }

  lemma {:induction false} ReadsExactly(sc: Schema, kind: Kind, j: Json)
    requires Sound(sc)
    ensures DecodeValue(sc, kind, j).Ok? <==> Accepts(sc, kind, j)
    decreases j, 2
  {
    match kind
    case Objects =>
      if j.Arr? {
        forall i | 0 <= i < |j.elements|
          ensures DecodeProp(sc, j.elements[i]).Ok? <==> AcceptsProp(sc, j.elements[i])
        {
          PropReadsExactly(sc, j.elements[i]);
        }
      }
    case Tags =>
      if j.Arr? {
        forall i | 0 <= i < |j.elements|
          ensures DecodeTag(sc, j.elements[i]).Ok? <==> AcceptsTag(sc, j.elements[i])
        {
          TagReadsExactly(sc, j.elements[i]);
        }
      }
    case Object => PropReadsExactly(sc, j);
    case _ =>
  }

  lemma {:induction false} PropReadsExactly(sc: Schema, j: Json)
    requires Sound(sc)
    ensures DecodeProp(sc, j).Ok? <==> AcceptsProp(sc, j)
    decreases j, 1
  {
    if j.Obj? {
      DecodedByType(sc, j.members);
      FieldsReadExactly(sc, sc.header, j);
      FieldsReadExactly(sc, sc.Fields(VariantOf(j.members)), j);
    }
  }

  lemma {:induction false} TagReadsExactly(sc: Schema, j: Json)
    requires Sound(sc)
    ensures DecodeTag(sc, j).Ok? <==> AcceptsTag(sc, j)
    decreases j, 1
  {
    if j.Obj? {
      TagDecodedByType(sc, j.members);
      FieldsReadExactly(sc, sc.header, j);
      FieldsReadExactly(sc, sc.link, j);
      assert Decodes(sc, map[], j);
    }
  }

  lemma {:induction false} FieldsReadExactly(sc: Schema, fields: Table, j: Json)
    requires Sound(sc) && j.Obj?
    ensures Decodes(sc, fields, j) <==> AcceptsFields(sc, fields, j)
    decreases j, 0
  {
    forall f, k | f in fields && k in j.members && Matches(k, f)
      ensures DecodeValue(sc, fields[f], j.members[k]).Ok? <==> Accepts(sc, fields[f], j.members[k])
    {
      ReadsExactly(sc, fields[f], j.members[k]);
    }
  }

  // ---------------------------------------------------------------------------------------------
  // What comes back unchanged

  /** JSON that leaves a field at its zero value, which is not written. */
  predicate Zero(kind: Kind, j: Json) {
    || j.Null?
    || (kind.PlainText? && j == Str(""))
    || ((kind.Objects? || kind.Tags? || kind.Relations?) && j == Arr([]))
  }

  predicate IsStringArray(j: Json) {
    j.Arr? && forall i :: 0 <= i < |j.elements| ==> j.elements[i].Str?
  }

  /** JSON that the encoder writes for a field of the kind: no array of one name or URL, no null name, and
      only normal objects inside. */
  ghost predicate Normal(sc: Schema, kind: Kind, j: Json)
    decreases j, 4
  {
    match kind
    case Names => j.Str? || (IsStringArray(j) && |j.elements| != 1)
    case Urls => j.Str? || (IsTextArray(j) && |j.elements| != 1)
    case Text => j.Str?
    case PlainText => j.Str?
    case Count => j.Num?
    case Objects => j.Arr? && forall i :: 0 <= i < |j.elements| ==> NormalProp(sc, j.elements[i])
    case Object => NormalProp(sc, j)
    case Tags => j.Arr? && forall i :: 0 <= i < |j.elements| ==> NormalTag(sc, j.elements[i])
    case Relations => IsStringArray(j)
  }

  ghost predicate NormalProp(sc: Schema, j: Json)
    decreases j, 3
  {
    j.Null? || j.Str? || (j.Obj? && (TypeNames(j.members).None? || NormalObject(sc, VariantOf(j.members), j)))
  }

  ghost predicate NormalTag(sc: Schema, j: Json)
    decreases j, 3
  {
    j.Null? || (j.Obj? && if IsLink(j.members) then NormalLink(sc, j) else NormalObject(sc, ObjectVariant, j))
  }

  /** A link has nothing but its fields and its type. */
  ghost predicate NormalLink(sc: Schema, j: Json)
    requires j.Obj?
    decreases j, 2
  {
    && "type" in j.members && j.members["type"] == Str("Link")
    && (forall k :: k in j.members ==> k == "type" || k in sc.link)
    && forall f :: f in sc.link && f in j.members ==>
         !Zero(sc.link[f], j.members[f]) && Normal(sc, sc.link[f], j.members[f])
  }

  /** No reserved property that the variant does not know, and every field normal. */
  ghost predicate NormalObject(sc: Schema, v: Variant, j: Json)
    requires j.Obj?
    decreases j, 2
  {
    && (forall k :: k in j.members && k in sc.reserved ==> k in sc.header || k in sc.Fields(v))
    && (forall f :: f in sc.header ==> NormalField(sc, sc.header[f], j, f, false))
    && forall f :: f in sc.Fields(v) ==> NormalField(sc, sc.Fields(v)[f], j, f, true)
  }

  /** A missing field stays missing. A field in another case must be zero, or it would come back under its
      own name too. A field under its own name must be normal, unless what is kept in `additional` shadows
      it; a zero is kept only if it is not reserved. */
  ghost predicate NormalField(sc: Schema, kind: Kind, j: Json, f: string, shadowed: bool)
    requires j.Obj?
    decreases j, 1
  {
    var key := KeyOf(j.members, f);
    if key.None? then !kind.Count?
    else if key.value != f then !kind.Count? && Zero(kind, j.members[key.value])
    else if shadowed && f !in sc.reserved then true
    else if Zero(kind, j.members[f]) then f !in sc.reserved
    else Normal(sc, kind, j.members[f])
  }

  /** What decoding makes of JSON, by its shape. */
  ghost predicate AsShaped(sc: Schema, kind: Kind, j: Json)
    requires DecodeValue(sc, kind, j).Ok?
  {
    var v := DecodeValue(sc, kind, j).value;
    (v.None? <==> Zero(kind, j)) && (v.Some? ==> (EncodeValue(v.value) == j <==> Normal(sc, kind, j)))
  }

  lemma NamesComeBack(elements: seq<Json>)
    requires IsTextArray(Arr(elements))
    ensures OneOrMany(TextsOf(TextsIn(elements))) == Arr(elements) <==> IsStringArray(Arr(elements)) && |elements| != 1
    ensures Arr(TextsOf(TextsIn(elements))) == Arr(elements) <==> IsStringArray(Arr(elements))
  {
    var texts := TextsOf(TextsIn(elements));
    assert forall i :: 0 <= i < |elements| ==> (texts[i] == elements[i] <==> elements[i].Str?);
    if IsStringArray(Arr(elements)) {
      assert texts == elements;
    }
  }

  lemma UrlsComeBack(elements: seq<Json>)
    requires IsTextArray(Arr(elements))
    ensures OneOrMany(UrlsOf(UrlsIn(elements))) == Arr(elements) <==> |elements| != 1
  {
    assert UrlsOf(UrlsIn(elements)) == elements;
  }

  lemma SingleName(s: string)
    ensures OneOrMany(TextsOf([s])) == Str(s) && OneOrMany(UrlsOf([Some(s)])) == Str(s)
  {
  }

  lemma {:induction false} ValueComesBack(sc: Schema, kind: Kind, j: Json)
    requires Sound(sc) && DecodeValue(sc, kind, j).Ok?
    ensures AsShaped(sc, kind, j)
    decreases j, 4
  {
    if !j.Null? {
      match kind
      case Names =>
        if j.Str? {
          SingleName(j.s);
        } else {
          NamesComeBack(j.elements);
        }
      case Urls =>
        if j.Str? {
          SingleName(j.s);
        } else {
          UrlsComeBack(j.elements);
        }
      case Relations => NamesComeBack(j.elements);
      case Objects => ObjectsComeBack(sc, j);
      case Tags => TagsComeBack(sc, j);
      case Object => PropComesBack(sc, j);
      case _ =>
    }
  }

  lemma {:induction false} ObjectsComeBack(sc: Schema, j: Json)
    requires Sound(sc) && !j.Null? && DecodeValue(sc, Objects, j).Ok?
    ensures AsShaped(sc, Objects, j)
    decreases j, 3
  {
    if j.elements != [] {
      var back := EncodeValue(DecodeValue(sc, Objects, j).value.value).elements;
      forall i | 0 <= i < |j.elements|
        ensures back[i] == j.elements[i] <==> NormalProp(sc, j.elements[i])
      {
        assert DecodeProp(sc, j.elements[i]).Ok?;
        PropComesBack(sc, j.elements[i]);
      }
      SameElements(back, j.elements);
    }
  }

  lemma {:induction false} TagsComeBack(sc: Schema, j: Json)
    requires Sound(sc) && !j.Null? && DecodeValue(sc, Tags, j).Ok?
    ensures AsShaped(sc, Tags, j)
    decreases j, 3
  {
    if j.elements != [] {
      var back := EncodeValue(DecodeValue(sc, Tags, j).value.value).elements;
      forall i | 0 <= i < |j.elements|
        ensures back[i] == j.elements[i] <==> NormalTag(sc, j.elements[i])
      {
        assert DecodeTag(sc, j.elements[i]).Ok?;
        TagComesBack(sc, j.elements[i]);
      }
      SameElements(back, j.elements);
    }
  }

  lemma SameElements(a: seq<Json>, b: seq<Json>)
    requires |a| == |b|
    ensures a == b <==> forall i :: 0 <= i < |a| ==> a[i] == b[i]
  {
  }

  lemma {:induction false} PropComesBack(sc: Schema, j: Json)
    requires Sound(sc) && DecodeProp(sc, j).Ok?
    ensures EncodeProp(DecodeProp(sc, j).value) == j <==> NormalProp(sc, j)
    decreases j, 2
  {
    if j.Obj? {
      DecodedByType(sc, j.members);
      if TypeNames(j.members).Some? {
        ObjectComesBack(sc, VariantOf(j.members), j);
      }
    }
  }

  lemma {:induction false} TagComesBack(sc: Schema, j: Json)
    requires Sound(sc) && DecodeTag(sc, j).Ok?
    ensures EncodeProp(DecodeTag(sc, j).value) == j <==> NormalTag(sc, j)
    decreases j, 2
  {
    if j.Obj? {
      TagDecodedByType(sc, j.members);
      if IsLink(j.members) {
        LinkComesBack(sc, j);
      } else {
        ObjectComesBack(sc, ObjectVariant, j);
      }
    }
  }

  // ---------------------------------------------------------------------------------------------
  // Documents

  function EncodeStruct(s: Struct): Document {
    map k | k in s :: EncodeValue(s[k])
  }

  lemma MarshalIsMerge(e: Entity)
    ensures Marshal(e) == Merge(Merge(EncodeStruct(e.header), e.additional), EncodeStruct(e.own))
  {
  }

  /** The two documents agree on the property. */
  predicate SameAt(a: Document, b: Document, k: string) {
    (k in a <==> k in b) && (k in a && k in b ==> a[k] == b[k])
  }

  lemma SameEverywhere(a: Document, b: Document)
    ensures a == b <==> forall k :: SameAt(a, b, k)
  {
    if forall k :: SameAt(a, b, k) {
      forall k ensures k in a <==> k in b {
        assert SameAt(a, b, k);
      }
      forall k | k in a ensures a[k] == b[k] {
        assert SameAt(a, b, k);
      }
    }
  }

  /** Where each property of a merged document comes from. */
  lemma MergedAt(h: Document, additional: Document, o: Document, k: string)
    ensures var d := Merge(Merge(h, additional), o);
            && (k in d <==> k in h || k in additional || k in o)
            && (k in d ==> d[k] == if k in h then h[k] else if k in additional then additional[k] else o[k])
  {
  }

  /** The document that comes back from `j`. */
  ghost function Returned(sc: Schema, v: Variant, j: Json): Document
    requires Unmarshal(sc, v, j).Ok?
  {
    Marshal(Unmarshal(sc, v, j).value)
  }

  lemma ReturnedAt(sc: Schema, v: Variant, j: Json, k: string)
    requires Sound(sc) && Unmarshal(sc, v, j).Ok?
    ensures var h, o := DecodeStruct(sc, sc.header, j), DecodeStruct(sc, sc.Fields(v), j);
            var d := Returned(sc, v, j);
            && (k in d <==> k in h || (k in j.members && k !in sc.reserved) || k in o)
            && (k in d ==> d[k] == if k in h then EncodeValue(h[k])
                                   else if k in j.members && k !in sc.reserved then j.members[k]
                                   else EncodeValue(o[k]))
  {
    var e := Unmarshal(sc, v, j).value;
    MarshalIsMerge(e);
    MergedAt(EncodeStruct(e.header), e.additional, EncodeStruct(e.own), k);
  }

  lemma DecodedAt(sc: Schema, fields: Table, j: Json, f: string)
    requires j.Obj? && Decodes(sc, fields, j) && f in fields
    ensures f in DecodeStruct(sc, fields, j) <==> DecodeField(sc, fields[f], j, f).Some?
    ensures f in DecodeStruct(sc, fields, j) ==>
              DecodeStruct(sc, fields, j)[f] == DecodeField(sc, fields[f], j, f).value
  {
  }

  lemma FieldsAreApart(sc: Schema, v: Variant, f: string)
    requires Sound(sc)
    ensures !(f in sc.header && f in sc.Fields(v))
  {
    assert Apart(sc.header, sc.Fields(v));
    assert Matches(f, f);
  }

  /** What comes back under the name of a field that decodes to `v`: a header field wins over what is kept,
      which wins over any other field. */
  ghost predicate BackAt(sc: Schema, j: Json, f: string, shadowed: bool, back: Document, v: Option<Value>)
    requires j.Obj?
  {
    var kept := f in j.members && f !in sc.reserved;
    && (f in back <==> v.Some? || kept)
    && (f in back ==> back[f] == if kept && (shadowed || v.None?) then j.members[f] else EncodeValue(v.value))
  }

  /** A field comes back unchanged exactly when it is normal. */
  lemma FieldComesBack(sc: Schema, kind: Kind, j: Json, f: string, shadowed: bool, back: Document)
    requires j.Obj?
    requires forall k :: k in j.members && Matches(k, f) ==> DecodeValue(sc, kind, j.members[k]).Ok?
    requires KeyOf(j.members, f).Some? ==> AsShapedAt(sc, kind, j, KeyOf(j.members, f).value)
    requires kind.Count? ==> f in sc.reserved
    requires BackAt(sc, j, f, shadowed, back, DecodeField(sc, kind, j, f))
    ensures SameAt(back, j.members, f) <==> NormalField(sc, kind, j, f, shadowed)
  {
  }

  lemma HeaderFieldComesBack(sc: Schema, v: Variant, j: Json, f: string)
    requires Sound(sc) && Unmarshal(sc, v, j).Ok? && f in sc.header
    requires KeyOf(j.members, f).Some? ==> AsShapedAt(sc, sc.header[f], j, KeyOf(j.members, f).value)
    ensures SameAt(Returned(sc, v, j), j.members, f) <==> NormalField(sc, sc.header[f], j, f, false)
  {
    ReturnedAt(sc, v, j, f);
    DecodedAt(sc, sc.header, j, f);
    FieldsAreApart(sc, v, f);
    FieldComesBack(sc, sc.header[f], j, f, false, Returned(sc, v, j));
  }

  lemma OwnFieldComesBack(sc: Schema, v: Variant, j: Json, f: string)
    requires Sound(sc) && Unmarshal(sc, v, j).Ok? && f in sc.Fields(v)
    requires KeyOf(j.members, f).Some? ==> AsShapedAt(sc, sc.Fields(v)[f], j, KeyOf(j.members, f).value)
    ensures SameAt(Returned(sc, v, j), j.members, f) <==> NormalField(sc, sc.Fields(v)[f], j, f, true)
  {
    ReturnedAt(sc, v, j, f);
    DecodedAt(sc, sc.Fields(v), j, f);
    FieldsAreApart(sc, v, f);
    FieldComesBack(sc, sc.Fields(v)[f], j, f, true, Returned(sc, v, j));
  }

  ghost predicate AsShapedAt(sc: Schema, kind: Kind, j: Json, k: string)
    requires j.Obj? && k in j.members
  {
    DecodeValue(sc, kind, j.members[k]).Ok? && AsShaped(sc, kind, j.members[k])
  }

  /** The fixed points of the codec: a document that can be read comes back unchanged exactly when it is
      normal. */
  lemma {:induction false} ObjectComesBack(sc: Schema, v: Variant, j: Json)
    requires Sound(sc) && Unmarshal(sc, v, j).Ok?
    ensures Marshal(Unmarshal(sc, v, j).value) == j.members <==> NormalObject(sc, v, j)
    decreases j, 1
  {
    var d := Returned(sc, v, j);
    forall f | f in sc.header
      ensures SameAt(d, j.members, f) <==> NormalField(sc, sc.header[f], j, f, false)
    {
      var key := KeyOf(j.members, f);
      if key.Some? {
        ValueComesBack(sc, sc.header[f], j.members[key.value]);
      }
      HeaderFieldComesBack(sc, v, j, f);
    }
    forall f | f in sc.Fields(v)
      ensures SameAt(d, j.members, f) <==> NormalField(sc, sc.Fields(v)[f], j, f, true)
    {
      var key := KeyOf(j.members, f);
      if key.Some? {
        ValueComesBack(sc, sc.Fields(v)[f], j.members[key.value]);
      }
      OwnFieldComesBack(sc, v, j, f);
    }
    forall k | k !in sc.header && k !in sc.Fields(v)
      ensures SameAt(d, j.members, k) <==> !(k in j.members && k in sc.reserved)
    {
      ReturnedAt(sc, v, j, k);
    }
    SameEverywhere(d, j.members);
    NormalByFields(sc, v, j, d);
  }

  lemma NormalByFields(sc: Schema, v: Variant, j: Json, d: Document)
    requires j.Obj?
    requires forall f :: f in sc.header ==>
               (SameAt(d, j.members, f) <==> NormalField(sc, sc.header[f], j, f, false))
    requires forall f :: f in sc.Fields(v) ==>
               (SameAt(d, j.members, f) <==> NormalField(sc, sc.Fields(v)[f], j, f, true))
    requires forall k :: k !in sc.header && k !in sc.Fields(v) ==>
               (SameAt(d, j.members, k) <==> !(k in j.members && k in sc.reserved))
    ensures (forall k :: SameAt(d, j.members, k)) <==> NormalObject(sc, v, j)
  {
    if NormalObject(sc, v, j) {
      forall k ensures SameAt(d, j.members, k) {
      }
    }
    if forall k :: SameAt(d, j.members, k) {
      assert forall k :: k in j.members && k in sc.reserved && k !in sc.header && k !in sc.Fields(v) ==>
                !SameAt(d, j.members, k);
      assert forall f :: f in sc.header ==> SameAt(d, j.members, f);
      assert forall f :: f in sc.Fields(v) ==> SameAt(d, j.members, f);
    }
  }

  lemma {:induction false} LinkComesBack(sc: Schema, j: Json)
    requires Sound(sc) && j.Obj? && Decodes(sc, sc.link, j)
    ensures EncodeProp(LinkTo(DecodeStruct(sc, sc.link, j))) == j <==> NormalLink(sc, j)
    decreases j, 1
  {
    var link := DecodeStruct(sc, sc.link, j);
    var d := EncodeProp(LinkTo(link)).members;
    assert d == Merge(EncodeStruct(link), map["type" := Str("Link")]);
    assert Matches("type", "type");
    assert "type" !in sc.link;
    forall f | f in sc.link && f in j.members
      ensures SameAt(d, j.members, f) <==> !Zero(sc.link[f], j.members[f]) && Normal(sc, sc.link[f], j.members[f])
    {
      ValueComesBack(sc, sc.link[f], j.members[f]);
      DecodedAt(sc, sc.link, j, f);
    }
    LinkByFields(sc, j, link, d);
  }

  lemma LinkByFields(sc: Schema, j: Json, link: Struct, d: Document)
    requires Sound(sc) && j.Obj? && Decodes(sc, sc.link, j) && link == DecodeStruct(sc, sc.link, j)
    requires "type" !in sc.link
    requires d == Merge(EncodeStruct(link), map["type" := Str("Link")])
    requires forall f :: f in sc.link && f in j.members ==>
               (SameAt(d, j.members, f) <==>
                !Zero(sc.link[f], j.members[f]) && Normal(sc, sc.link[f], j.members[f]))
    ensures d == j.members <==> NormalLink(sc, j)
  {
    SameEverywhere(d, j.members);
    LinkKeys(sc, link, d);
    if NormalLink(sc, j) {
      forall f | f in sc.link && f !in j.members ensures SameAt(d, j.members, f) {
        MissingLinkField(sc, j, f);
      }
    }
    LinkByKeys(sc, j, d);
  }

  lemma LinkKeys(sc: Schema, link: Struct, d: Document)
    requires link.Keys <= sc.link.Keys && "type" !in sc.link
    requires d == Merge(EncodeStruct(link), map["type" := Str("Link")])
    ensures "type" in d && d["type"] == Str("Link")
    ensures forall k :: k in d ==> k == "type" || k in sc.link
    ensures forall k :: k in sc.link ==> (k in d <==> k in link)
  {
  }

  lemma LinkByKeys(sc: Schema, j: Json, d: Document)
    requires j.Obj? && "type" !in sc.link
    requires "type" in d && d["type"] == Str("Link") && forall k :: k in d ==> k == "type" || k in sc.link
    requires forall f :: f in sc.link && f in j.members ==>
               (SameAt(d, j.members, f) <==>
                !Zero(sc.link[f], j.members[f]) && Normal(sc, sc.link[f], j.members[f]))
    requires NormalLink(sc, j) ==> forall f :: f in sc.link && f !in j.members ==> SameAt(d, j.members, f)
    ensures (forall k :: SameAt(d, j.members, k)) <==> NormalLink(sc, j)
  {
    if NormalLink(sc, j) {
      forall k ensures SameAt(d, j.members, k) {
      }
    }
    if forall k :: SameAt(d, j.members, k) {
      assert SameAt(d, j.members, "type");
      forall k | k in j.members ensures k == "type" || k in sc.link {
        assert SameAt(d, j.members, k);
      }
      forall f | f in sc.link && f in j.members
        ensures !Zero(sc.link[f], j.members[f]) && Normal(sc, sc.link[f], j.members[f])
      {
        assert SameAt(d, j.members, f);
      }
    }
  }

  lemma MissingLinkField(sc: Schema, j: Json, f: string)
    requires Sound(sc) && j.Obj? && Decodes(sc, sc.link, j) && f in sc.link && f !in j.members
    requires NormalLink(sc, j)
    ensures f !in DecodeStruct(sc, sc.link, j)
  {
    DecodedAt(sc, sc.link, j, f);
    assert KeyOf(j.members, f).None?;
  }
}
