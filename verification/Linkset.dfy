/** Anchor links (pkg/linkset/linkset.go; the JSON format is section 4.2 of RFC 9264): a link whose anchor is
    the hashlink of its original content, which is carried in a data URI. */
module Linkset {
  import opened Common
  import opened ByteStrings
  import DataUri
  import Hashlink

  type Url = DataUri.Url

  datatype Reference = Reference(href: Option<Url>, contentType: Bytes)

  datatype Link = Link(
    anchor: Option<Url>,
    author: seq<Reference>,
    profile: seq<Reference>,
    original: seq<Reference>,
    related: seq<Reference>,
    replies: seq<Reference>
  )

  /** `NilHref` stands for the panic on a reference without an href. */
  datatype Error =
    | NoAnchor | NotAHashlink | NoAuthor | NoProfile
    | NilHref | UnsupportedProtocol | BadContent(cause: DataUri.Error)
    | HashMismatch | BadDataUri(cause: DataUri.Error)

  const HL: Bytes := ['h' as int, 'l' as int]
  const DATA_PREFIX: Bytes := DataUri.DATA + [COLON]

  /** SHA-256 and gzip. */
  datatype Library = Library(sha: Hashlink.Sha256, gz: DataUri.Gzip)

  function FirstHref(refs: seq<Reference>): Option<Url> {
    if refs == [] then None else refs[0].href
  }

  /** `Reference.Content` */
  function Content(lib: Library, r: Reference): Result<Bytes, Error> {
    if r.href.None? then Err(NilHref)
    else if DATA_PREFIX <= DataUri.UrlString(r.href.value) then
      var content := DataUri.Decode(lib.gz, r.href.value);
      if content.Err? then Err(BadContent(content.error)) else Ok(content.value)
    else Err(UnsupportedProtocol)
  }

  /** `validateOriginal`: the error, if any. */
  function ValidateOriginal(lib: Library, original: seq<Reference>, anchor: Url): Option<Error> {
    if original == [] then None
    else
      var content := Content(lib, original[0]);
      if content.Err? then Some(content.error)
      else if Hashlink.CreateResourceHash(lib.sha, content.value) != anchor.body then Some(HashMismatch)
      else None
  }

  /** `validateRelated` and `validateReplies` */
  function ValidateContent(lib: Library, refs: seq<Reference>): Option<Error> {
    if refs == [] then None
    else
      var content := Content(lib, refs[0]);
      if content.Err? then Some(content.error) else None
  }

  /** `Link.Validate` up to its last check: the error, if any. */
  function ValidateUpToReplies(lib: Library, l: Link): Option<Error> {
    if l.anchor.None? then Some(NoAnchor)
    else if l.anchor.value.scheme != HL then Some(NotAHashlink)
    else if FirstHref(l.author).None? then Some(NoAuthor)
    else if FirstHref(l.profile).None? then Some(NoProfile)
    else
      var bad := ValidateOriginal(lib, l.original, l.anchor.value);
      if bad.Some? then bad else ValidateContent(lib, l.related)
  }

  /** `Link.Validate`: the error, if any. The check of the replies is given the related references. */
  function Validate(lib: Library, l: Link): Option<Error> {
    var bad := ValidateUpToReplies(lib, l);
    if bad.Some? then bad else ValidateContent(lib, l.related)
  }

  /** What the name of the last check says: the replies are validated. */
  function ValidateWithReplies(lib: Library, l: Link): Option<Error> {
    var bad := ValidateUpToReplies(lib, l);
    if bad.Some? then bad else ValidateContent(lib, l.replies)
  }

  function RefsFrom(r: Option<Reference>): seq<Reference> {
    if r.None? then [] else [r.value]
  }

  function NewLink(anchor: Option<Url>, author: Option<Url>, profile: Option<Url>, original: Option<Reference>,
                   related: Option<Reference>, replies: Option<Reference>): Link {
    Link(anchor, [Reference(author, [])], [Reference(profile, [])], RefsFrom(original), RefsFrom(related),
         RefsFrom(replies))
  }

  datatype AnchorRef = AnchorRef(anchor: Url, reference: Reference)

  function NewAnchorRef(lib: Library, data: Bytes, mediaType: Bytes, contentType: Bytes)
    : Result<AnchorRef, Error>
  {
    var anchorUri := DataUri.ParseUrl(Hashlink.CreateHashLink(lib.sha, data, []));
    if anchorUri.Err? then Err(BadDataUri(anchorUri.error))
    else
      var dataUri := DataUri.New(lib.gz, data, mediaType);
      if dataUri.Err? then Err(BadDataUri(dataUri.error))
      else Ok(AnchorRef(anchorUri.value, Reference(Some(dataUri.value), contentType)))
  }

  // ---------------------------------------------------------------------------------------------
  // Properties

  /** The hashlink of some data is a URL of scheme hl whose body is the resource hash. */
  lemma AnchorUrl(sha: Hashlink.Sha256, data: Bytes)
    ensures DataUri.ParseUrl(Hashlink.CreateHashLink(sha, data, [])) ==
            Ok(DataUri.Url(HL, Hashlink.CreateResourceHash(sha, data)))
  {
    var hash := Hashlink.CreateResourceHash(sha, data);
    var raw := EncodeRaw(UrlAlphabet, Hashlink.Multihash(sha, data));
    EncodedSymbols(UrlAlphabet, Hashlink.Multihash(sha, data));
    assert forall b: Byte :: IsSymbol(UrlAlphabet, b) ==> DataUri.IsBodyByte(b);
    assert hash == [Hashlink.LETTER_U] + raw;
    DataUri.ParseUrlOf(HL, hash);
    assert Hashlink.HL_PREFIX + hash == HL + [COLON] + hash;
  }

  /** An anchor reference is made exactly for the two media types; its anchor is the hashlink of the data
      and its content is the data. */
  lemma AnchorRefRoundTrip(lib: Library, data: Bytes, mediaType: Bytes, contentType: Bytes)
    requires lib.gz.Inverts()
    ensures NewAnchorRef(lib, data, mediaType, contentType).Ok? <==> DataUri.IsMediaType(mediaType)
    ensures DataUri.IsMediaType(mediaType) ==>
              var r := NewAnchorRef(lib, data, mediaType, contentType).value;
              && r.anchor == DataUri.Url(HL, Hashlink.CreateResourceHash(lib.sha, data))
              && r.reference.contentType == contentType
              && Content(lib, r.reference) == Ok(data)
  {
    AnchorUrl(lib.sha, data);
    DataUri.DataUriRoundTrip(lib.gz, data, mediaType);
    if DataUri.IsMediaType(mediaType) {
      var u := DataUri.New(lib.gz, data, mediaType).value;
      assert DataUri.UrlString(u) == DATA_PREFIX + u.body;
    }
  }

  /** Completeness: a link built from an anchor reference validates exactly when it has an author and a
      profile and its related content, if any, can be decoded. */
  lemma BuiltLinkValidates(lib: Library, data: Bytes, mediaType: Bytes, contentType: Bytes,
                           author: Option<Url>, profile: Option<Url>,
                           related: Option<Reference>, replies: Option<Reference>)
    requires lib.gz.Inverts() && DataUri.IsMediaType(mediaType)
    ensures NewAnchorRef(lib, data, mediaType, contentType).Ok?
    ensures var r := NewAnchorRef(lib, data, mediaType, contentType).value;
            Validate(lib, NewLink(Some(r.anchor), author, profile, Some(r.reference), related, replies)) == None
            <==> author.Some? && profile.Some? && (related.None? || Content(lib, related.value).Ok?)
  {
    AnchorRefRoundTrip(lib, data, mediaType, contentType);
  }

  /** Soundness: the anchor of any validated link with an original is the hashlink of the decoded original,
      so two validated links with the same anchor carry originals with the same hash. */
  lemma ValidatedAnchorIsTheHash(lib: Library, l: Link)
    requires Validate(lib, l) == None && l.original != []
    ensures l.anchor.Some?
    ensures Content(lib, l.original[0]).Ok?
    ensures l.anchor.value ==
            DataUri.Url(HL, Hashlink.CreateResourceHash(lib.sha, Content(lib, l.original[0]).value))
    ensures DataUri.UrlString(l.anchor.value) ==
            Hashlink.CreateHashLink(lib.sha, Content(lib, l.original[0]).value, [])
  {
    var hash := Hashlink.CreateResourceHash(lib.sha, Content(lib, l.original[0]).value);
    assert Hashlink.HL_PREFIX + hash == HL + [COLON] + hash;
  }

  /** The code agrees with a validation of the replies exactly when there are none, the first can be decoded, or
      the link is invalid anyway. */
  lemma RepliesAreValidatedIff(lib: Library, l: Link)
    ensures Validate(lib, l) == ValidateWithReplies(lib, l) <==>
              l.replies == [] || Content(lib, l.replies[0]).Ok? || Validate(lib, l).Some?
    ensures ValidateWithReplies(lib, l) == None ==> Validate(lib, l) == None
  {
    var bad := ValidateUpToReplies(lib, l);
    if bad.None? {
      assert ValidateContent(lib, l.related) == None;
      assert Validate(lib, l) == None;
    }
  }

  /** A link built from an anchor reference validates whatever its reply refers to, for instance a web page,
      which has no content to decode. */
  lemma UndecodableReplyValidates(lib: Library, data: Bytes, contentType: Bytes, author: Url, profile: Url, page: Bytes)
    requires lib.gz.Inverts()
    ensures NewAnchorRef(lib, data, DataUri.JSON, contentType).Ok?
    ensures var r := NewAnchorRef(lib, data, DataUri.JSON, contentType).value;
            var reply := Reference(Some(DataUri.Url(HTTPS, page)), []);
            var l := NewLink(Some(r.anchor), Some(author), Some(profile), Some(r.reference), None, Some(reply));
            && Content(lib, reply) == Err(UnsupportedProtocol)
            && Validate(lib, l) == None && ValidateWithReplies(lib, l) == Some(UnsupportedProtocol)
  {
    var reply := Reference(Some(DataUri.Url(HTTPS, page)), []);
    assert DataUri.UrlString(reply.href.value)[0] != DATA_PREFIX[0];
    BuiltLinkValidates(lib, data, DataUri.JSON, contentType, Some(author), Some(profile), None, Some(reply));
  }

  /** What the accessors of a link built by `NewLink` return is what it was built from. */
  lemma NewLinkHolds(anchor: Option<Url>, author: Option<Url>, profile: Option<Url>, original: Option<Reference>,
                     related: Option<Reference>, replies: Option<Reference>)
    ensures var l := NewLink(anchor, author, profile, original, related, replies);
            && l.anchor == anchor && FirstHref(l.author) == author && FirstHref(l.profile) == profile
            && FirstOf(l.original) == original && FirstOf(l.related) == related && FirstOf(l.replies) == replies
  {
  }

  /** `Link.Original`, `Link.Related` and `Link.Replies`: the first reference, or nil. */
  function FirstOf(refs: seq<Reference>): Option<Reference> {
    if refs == [] then None else Some(refs[0])
  }

  /** What makes a link invalid, in this order: no anchor, an anchor that is not a hashlink, no author, no profile,
      an original that cannot be decoded or does not match the anchor, related content that cannot be decoded. */
  lemma ValidationErrors(lib: Library, l: Link)
    ensures l.anchor.None? ==> Validate(lib, l) == Some(NoAnchor)
    ensures l.anchor.Some? && l.anchor.value.scheme != [0x68, 0x6C] ==> Validate(lib, l) == Some(NotAHashlink)
    ensures l.anchor.Some? && l.anchor.value.scheme == [0x68, 0x6C] ==>
              && (FirstHref(l.author).None? ==> Validate(lib, l) == Some(NoAuthor))
              && (FirstHref(l.author).Some? && FirstHref(l.profile).None? ==> Validate(lib, l) == Some(NoProfile))
              && (FirstHref(l.author).Some? && FirstHref(l.profile).Some? ==>
                    && (l.original != [] && Content(lib, l.original[0]).Ok?
                        && DataUri.UrlString(l.anchor.value) !=
                           Hashlink.CreateHashLink(lib.sha, Content(lib, l.original[0]).value, [])
                        ==> Validate(lib, l) == Some(HashMismatch))
                    && (l.original != [] && Content(lib, l.original[0]).Err? ==>
                          Validate(lib, l) == Some(Content(lib, l.original[0]).error))
                    && (l.original == [] && l.related != [] && Content(lib, l.related[0]).Err? ==>
                          Validate(lib, l) == Some(Content(lib, l.related[0]).error))
                    && (l.original == [] && l.related == [] ==> Validate(lib, l) == None))
  {
  }

  /** "https" */
  const HTTPS: Bytes := ['h' as int, 't' as int, 't' as int, 'p' as int, 's' as int]
}
