/** The observer (pkg/observer): anchors and DIDs arrive as messages that are delivered at least once; an
    anchor is processed by handing its operations to the transaction processor, recording it as the latest
    anchor of its DIDs, and saving its hashlink. A message is acknowledged or not by the class of its error.

    What the providers answer while one link is processed is a parameter. */
module Observer {
  import opened Common
  import opened ByteStrings
  import opened Errors
  import Hashlink

  type HL = Bytes

  datatype AnchorInfo = AnchorInfo(hashlink: HL, localHashlink: HL, attributedTo: Bytes)

  /** A DID suffix with its previous anchor (empty for a create operation). */
  datatype SuffixAnchor = SuffixAnchor(suffix: Bytes, anchor: Bytes)

  /** The answers of the providers, in the order they are asked. An answer None means success. */
  datatype Answers = Answers(
    payload: Result<seq<SuffixAnchor>, Error>,    // GetPayloadFromAnchorLink: the previous anchors
    protocolClient: Option<Error>,
    protocolVersion: Option<Error>,
    credential: Option<Error>,
    processed: Result<nat, Error>,                // TransactionProcessor.Process: number of operations
    getLinks: Option<Error>,
    putBulk: Option<Error>,
    urlParses: bool,                              // url.Parse of the hashlink
    putLinks: Option<Error>,
    recipients: Result<seq<Bytes>, Error>,        // resolving whom to send the 'Like' to
    post: Option<Error>
  )

  datatype Like = Like(to: seq<Bytes>, anchor: HL, result: HL)

  /** The stores. `written` is history: the anchors for which a did-anchor bulk write succeeded. `foreign` is
      history as well: links put by others (acknowledgements from other servers). */
  datatype Stores = Stores(
    didAnchors: map<Bytes, HL>,
    links: seq<HL>,
    outbox: seq<Like>,
    written: set<HL>,
    foreign: set<HL>
  )

  // ---------------------------------------------------------------------------------------------
  // Effects

  datatype Effect =
    | PutBulk(suffixes: seq<Bytes>, anchor: HL)
    | PutLink(link: HL)
    | Post(like: Like)

  function PutAll(m: map<Bytes, HL>, suffixes: seq<Bytes>, anchor: HL): map<Bytes, HL>
    decreases |suffixes|
  {
    if suffixes == [] then m else PutAll(m[suffixes[0] := anchor], suffixes[1..], anchor)
  }

  function Apply(s: Stores, e: Effect): Stores {
    match e
    case PutBulk(suffixes, anchor) =>
      s.(didAnchors := PutAll(s.didAnchors, suffixes, anchor), written := s.written + {anchor})
    case PutLink(link) => s.(links := if link in s.links then s.links else s.links + [link])
    case Post(like) => s.(outbox := s.outbox + [like])
  }

  function ApplyAll(s: Stores, effects: seq<Effect>): Stores
    decreases |effects|
  {
    if effects == [] then s else ApplyAll(Apply(s, effects[0]), effects[1..])
  }

  lemma {:induction false} ApplyAllConcat(s: Stores, a: seq<Effect>, b: seq<Effect>)
    ensures ApplyAll(s, a + b) == ApplyAll(ApplyAll(s, a), b)
    decreases |a|
  {
    if a == [] {
      assert a + b == b;
    } else {
      assert (a + b)[1..] == a[1..] + b;
      ApplyAllConcat(Apply(s, a[0]), a[1..], b);
    }
  }

  /** What a step did, in order, and the error it ended with. */
  datatype Outcome = Outcome(effects: seq<Effect>, error: Option<Error>)

  // ---------------------------------------------------------------------------------------------
  // Processing one link

  function Suffixes(previous: seq<SuffixAnchor>): seq<Bytes> {
    seq(|previous|, i requires 0 <= i < |previous| => previous[i].suffix)
  }

  /** The did-anchor store refuses an empty list of suffixes with a persistent error. */
  function BulkWriteError(previous: seq<SuffixAnchor>, a: Answers): Option<Error> {
    if previous == [] then Some(Plain("no suffixes provided")) else a.putBulk
  }

  /** The provider error that stops the processing of a link, if any. */
  function Failure(s: Stores, hl: HL, a: Answers): Option<Error> {
    if a.payload.Err? then Some(a.payload.error)
    else if a.protocolClient.Some? then a.protocolClient
    else if a.protocolVersion.Some? then a.protocolVersion
    else if Hashlink.GetResourceHashFromHashLink(hl).Err? then Some(Plain("must start with 'hl:' prefix"))
    else if a.credential.Some? then a.credential
    else if a.processed.Err? then Some(a.processed.error)
    else if a.processed.value == 0 && a.getLinks.Some? then a.getLinks
    else if IsDuplicate(s, hl, a) then None
    else BulkWriteError(a.payload.value, a)
  }

  /** No operation was new and the hashlink is saved: the anchor has already been processed. */
  predicate IsDuplicate(s: Stores, hl: HL, a: Answers) {
    a.processed == Ok(0) && hl in s.links
  }

  /** `saveAnchorLinkAndPostLikeActivity`, whose errors are only logged. */
  function SaveAndLike(anchor: AnchorInfo, a: Answers): seq<Effect> {
    if !a.urlParses then []
    else
      (if a.putLinks.None? then [PutLink(anchor.hashlink)] else [])
      + (if anchor.attributedTo != [] && a.recipients.Ok? && a.post.None?
         then [Post(Like(a.recipients.value, anchor.hashlink, anchor.localHashlink))]
         else [])
  }

  /** `processAnchor` */
  function ProcessAnchor(s: Stores, anchor: AnchorInfo, a: Answers): Outcome {
    var failure := Failure(s, anchor.hashlink, a);
    if failure.Some? then Outcome([], Some(Wrapped("process anchor", failure.value)))
    else if IsDuplicate(s, anchor.hashlink, a) then Outcome([], None)
    else
      Outcome([PutBulk(Suffixes(a.payload.value), anchor.hashlink)] + SaveAndLike(anchor, a), None)
  }

  // ---------------------------------------------------------------------------------------------
  // Processing a linkset and a DID

  /** The loop of `handleAnchor` over the links of a linkset, which stops at the first error. */
  function ProcessLinks(s: Stores, anchor: AnchorInfo, links: seq<Answers>): Outcome
    decreases |links|
  {
    if links == [] then Outcome([], None)
    else
      var first := ProcessAnchor(s, anchor, links[0]);
      if first.error.Some? then first
      else
        var others := ProcessLinks(ApplyAll(s, first.effects), anchor, links[1..]);
        Outcome(first.effects + others.effects, others.error)
  }

  /** `handleAnchor`; `read` is what the anchor graph returns: the links, or an error. */
  function HandleAnchor(s: Stores, anchor: AnchorInfo, read: Result<seq<Answers>, Error>): Outcome {
    if read.Err? then Outcome([], Some(read.error)) else ProcessLinks(s, anchor, read.value)
  }

  datatype DidAnchor = DidAnchor(cid: HL, answers: Answers)

  /** The loop of `processDID` over the DID's anchors: only a transient error stops it. */
  function ProcessDidAnchors(s: Stores, anchors: seq<DidAnchor>): Outcome
    decreases |anchors|
  {
    if anchors == [] then Outcome([], None)
    else
      var first := ProcessAnchor(s, AnchorInfo(anchors[0].cid, [], []), anchors[0].answers);
      if first.error.Some? && IsTransient(first.error.value) then
        Outcome(first.effects, Some(Wrapped("process out-of-system anchor", first.error.value)))
      else
        var others := ProcessDidAnchors(ApplyAll(s, first.effects), anchors[1..]);
        Outcome(first.effects + others.effects, others.error)
  }

  /** The position of the last colon, if there is one. */
  function LastColon(did: Bytes): (pos: Option<nat>)
    ensures pos.None? <==> COLON !in did
    ensures pos.Some? ==> pos.value < |did| && did[pos.value] == COLON && COLON !in did[pos.value + 1..]
  {
    if did == [] then None
    else if did[|did| - 1] == COLON then Some(|did| - 1)
    else
      assert did == did[..|did| - 1] + [did[|did| - 1]];
      var pos := LastColon(did[..|did| - 1]);
      assert pos.Some? ==> did[pos.value + 1..] == did[..|did| - 1][pos.value + 1..] + [did[|did| - 1]];
      pos
  }

  datatype DidParts = DidParts(cid: Bytes, suffix: Bytes)

  /** `getDidParts` */
  function GetDidParts(did: Bytes): Result<DidParts, Error> {
    var pos := LastColon(did);
    if pos.None? then Err(Plain("invalid number of parts"))
    else Ok(DidParts(did[..pos.value], did[pos.value + 1..]))
  }

  /** A DID is taken apart at its last colon, exactly if it has one, and nothing is lost. */
  lemma DidPartsExactly(did: Bytes, parts: DidParts)
    ensures GetDidParts(did) == Ok(parts) <==>
              did == parts.cid + [COLON] + parts.suffix && COLON !in parts.suffix
    ensures GetDidParts(did).Err? <==> COLON !in did
  {
    var pos := LastColon(did);
    if pos.Some? {
      assert did == did[..pos.value] + [COLON] + did[pos.value + 1..];
    }
    if did == parts.cid + [COLON] + parts.suffix && COLON !in parts.suffix {
      LastColonIs(did, parts.cid, parts.suffix);
      assert did[..|parts.cid|] == parts.cid && did[|parts.cid| + 1..] == parts.suffix;
    }
  }

  lemma {:induction false} LastColonIs(did: Bytes, cid: Bytes, suffix: Bytes)
    requires did == cid + [COLON] + suffix && COLON !in suffix
    ensures LastColon(did) == Some(|cid|)
    decreases |suffix|
  {
    if suffix != [] {
      var n := |suffix| - 1;
      assert did[|did| - 1] == suffix[n];
      assert did[..|did| - 1] == cid + [COLON] + suffix[..n];
      LastColonIs(did[..|did| - 1], cid, suffix[..n]);
    }
  }

  /** `processDID`; `read` is what the anchor graph returns for the parts of the DID. */
  function ProcessDID(s: Stores, did: Bytes, anchors: Result<seq<DidAnchor>, Error>): Outcome {
    var parts := GetDidParts(did);
    if parts.Err? then Outcome([], Some(parts.error))
    else if anchors.Err? then Outcome([], Some(anchors.error))
    else ProcessDidAnchors(s, anchors.value)
  }

  // ---------------------------------------------------------------------------------------------
  // Acknowledging

  datatype Ack = Acked | Nacked

  /** `ackNackMessage` */
  function AckNack(error: Option<Error>): Ack {
    if error.Some? && IsTransient(error.value) then Nacked else Acked
  }

  /** A message with a single-link linkset is nacked exactly when a transient error occurs in the chain of the
      error that stopped its processing: the anchor graph's, or else a provider's. Every wrapper on the way
      keeps the class. */
  lemma NackedExactlyOnTransient(s: Stores, anchor: AnchorInfo, read: Result<Answers, Error>)
    ensures var links := if read.Ok? then Ok([read.value]) else Err(read.error);
            var failure := if read.Err? then Some(read.error) else Failure(s, anchor.hashlink, read.value);
            AckNack(HandleAnchor(s, anchor, links).error) == Nacked <==>
              failure.Some? && HasTransient(Chain(failure.value))
  {
    var failure := if read.Err? then Some(read.error) else Failure(s, anchor.hashlink, read.value);
    if failure.Some? {
      IsTransientInChain(failure.value);
    }
    if read.Ok? {
      SingleLink(s, anchor, read.value);
    }
  }

  /** A linkset of any length: the result is an error exactly if some link fails, and then it is the error of the
      first link that fails. */
  lemma {:induction false} FirstFailureDecides(s: Stores, anchor: AnchorInfo, links: seq<Answers>)
    ensures ProcessLinks(s, anchor, links).error.Some? <==> SomeLinkFails(s, anchor, links)
    ensures forall i :: 0 <= i < |links| && LinkError(s, anchor, links, i).Some?
              ==> ProcessLinks(s, anchor, links).error == LinkError(s, anchor, links, i)
    decreases |links|
  {
    if links != [] {
      var first := ProcessAnchor(s, anchor, links[0]);
      var t := ApplyAll(s, first.effects);
      FirstFailureDecides(t, anchor, links[1..]);
      FailsFirstOrLater(s, anchor, links);
      forall i | 0 <= i < |links| && LinkError(s, anchor, links, i).Some?
        ensures ProcessLinks(s, anchor, links).error == LinkError(s, anchor, links, i)
      {
        if i > 0 {
          assert LinkError(s, anchor, links, i) == LinkError(t, anchor, links[1..], i - 1);
        }
      }
    }
  }

  predicate SomeLinkFails(s: Stores, anchor: AnchorInfo, links: seq<Answers>) {
    exists i :: 0 <= i < |links| && LinkError(s, anchor, links, i).Some?
  }

  lemma FailsFirstOrLater(s: Stores, anchor: AnchorInfo, links: seq<Answers>)
    requires links != []
    ensures var first := ProcessAnchor(s, anchor, links[0]);
            SomeLinkFails(s, anchor, links) <==>
              first.error.Some? || SomeLinkFails(ApplyAll(s, first.effects), anchor, links[1..])
  {
    var first := ProcessAnchor(s, anchor, links[0]);
    var t := ApplyAll(s, first.effects);
    if first.error.Some? {
      assert LinkError(s, anchor, links, 0).Some?;
    } else {
      if SomeLinkFails(t, anchor, links[1..]) {
        var i :| 0 <= i < |links[1..]| && LinkError(t, anchor, links[1..], i).Some?;
        assert LinkError(s, anchor, links, i + 1).Some?;
      }
      if SomeLinkFails(s, anchor, links) {
        var i :| 0 <= i < |links| && LinkError(s, anchor, links, i).Some?;
        assert LinkError(t, anchor, links[1..], i - 1).Some?;
      }
    }
  }

  /** The error link i ends with, if the links before it succeed. */
  function LinkError(s: Stores, anchor: AnchorInfo, links: seq<Answers>, i: nat): Option<Error>
    requires i < |links|
    decreases i
  {
    var first := ProcessAnchor(s, anchor, links[0]);
    if i == 0 then first.error
    else if first.error.Some? then None
    else LinkError(ApplyAll(s, first.effects), anchor, links[1..], i - 1)
  }

  /** A DID message is nacked exactly when one of its anchors fails with a transient error; other failures
      are skipped over. */
  lemma {:induction false} DidNackedExactlyOnTransient(s: Stores, anchors: seq<DidAnchor>)
    ensures var o := ProcessDidAnchors(s, anchors);
            && (o.error.Some? ==> IsTransient(o.error.value))
            && (AckNack(o.error) == Nacked <==> o.error.Some?)
            && (o.error.Some? <==> SomeFailsTransiently(s, anchors))
    decreases |anchors|
  {
    if anchors == [] {
      assert !SomeFailsTransiently(s, anchors);
    } else {
      var first := ProcessAnchor(s, AnchorInfo(anchors[0].cid, [], []), anchors[0].answers);
      DidNackedExactlyOnTransient(ApplyAll(s, first.effects), anchors[1..]);
      FirstOrLaterFails(s, anchors);
    }
  }

  ghost predicate SomeFailsTransiently(s: Stores, anchors: seq<DidAnchor>) {
    exists i :: 0 <= i < |anchors| && FailsTransiently(s, anchors, i)
  }

  lemma FirstOrLaterFails(s: Stores, anchors: seq<DidAnchor>)
    requires anchors != []
    ensures var first := ProcessAnchor(s, AnchorInfo(anchors[0].cid, [], []), anchors[0].answers);
            SomeFailsTransiently(s, anchors) <==>
              || (first.error.Some? && IsTransient(first.error.value))
              || SomeFailsTransiently(ApplyAll(s, first.effects), anchors[1..])
  {
    var first := ProcessAnchor(s, AnchorInfo(anchors[0].cid, [], []), anchors[0].answers);
    var t := ApplyAll(s, first.effects);
    if SomeFailsTransiently(s, anchors) {
      var i :| 0 <= i < |anchors| && FailsTransiently(s, anchors, i);
      assert i > 0 ==> FailsTransiently(t, anchors[1..], i - 1);
    }
    if SomeFailsTransiently(t, anchors[1..]) {
      var i :| 0 <= i < |anchors[1..]| && FailsTransiently(t, anchors[1..], i);
      assert FailsTransiently(s, anchors, i + 1);
    }
    assert first.error.Some? && IsTransient(first.error.value) ==> FailsTransiently(s, anchors, 0);
  }

  /** The error anchor i ends with when the anchors before it have been processed. */
  function DidAnchorError(s: Stores, anchors: seq<DidAnchor>, i: nat): Option<Error>
    requires i < |anchors|
    decreases i
  {
    var first := ProcessAnchor(s, AnchorInfo(anchors[0].cid, [], []), anchors[0].answers);
    if i == 0 then first.error else DidAnchorError(ApplyAll(s, first.effects), anchors[1..], i - 1)
  }

  predicate FailsTransiently(s: Stores, anchors: seq<DidAnchor>, i: nat)
    requires i < |anchors|
  {
    var error := DidAnchorError(s, anchors, i);
    error.Some? && IsTransient(error.value)
  }

  /** The link that fails stops the rest: what has been done is what the links before it have done. */
  lemma {:induction false} FailureStopsTheRest(s: Stores, anchor: AnchorInfo, links: seq<Answers>, i: nat)
    requires i < |links| && LinkError(s, anchor, links, i).Some?
    ensures ProcessLinks(s, anchor, links[..i]).error.None?
    ensures ProcessLinks(s, anchor, links).effects == ProcessLinks(s, anchor, links[..i]).effects
    decreases i
  {
    var first := ProcessAnchor(s, anchor, links[0]);
    if i > 0 {
      FailureStopsTheRest(ApplyAll(s, first.effects), anchor, links[1..], i - 1);
      assert links[..i][1..] == links[1..][..i - 1];
    }
  }

  /** So does a transient failure of an anchor of a DID. */
  lemma {:induction false} TransientFailureStopsTheRest(s: Stores, anchors: seq<DidAnchor>, i: nat)
    requires i < |anchors| && FailsTransiently(s, anchors, i)
    requires forall j :: 0 <= j < i ==> !FailsTransiently(s, anchors, j)
    ensures ProcessDidAnchors(s, anchors[..i]).error.None?
    ensures ProcessDidAnchors(s, anchors).effects == ProcessDidAnchors(s, anchors[..i]).effects
    decreases i
  {
    var first := ProcessAnchor(s, AnchorInfo(anchors[0].cid, [], []), anchors[0].answers);
    var t := ApplyAll(s, first.effects);
    if i > 0 {
      assert !FailsTransiently(s, anchors, 0);
      forall j | 0 <= j < i - 1 ensures !FailsTransiently(t, anchors[1..], j) {
        assert !FailsTransiently(s, anchors, j + 1);
      }
      TransientFailureStopsTheRest(t, anchors[1..], i - 1);
      assert anchors[..i][1..] == anchors[1..][..i - 1];
    }
  }

  /** A DID message is nacked exactly when the DID has a colon and either its anchors could not be read for a
      transient reason, or one of them fails with a transient error. */
  lemma DidMessageNackedIff(s: Stores, did: Bytes, anchors: Result<seq<DidAnchor>, Error>)
    ensures AckNack(ProcessDID(s, did, anchors).error) == Nacked <==>
              && COLON in did
              && (anchors.Err? ==> HasTransient(Chain(anchors.error)))
              && (anchors.Ok? ==> SomeFailsTransiently(s, anchors.value))
    ensures ProcessDID(s, did, anchors).error.None? ==>
              COLON in did && anchors.Ok? && !SomeFailsTransiently(s, anchors.value)
  {
    if anchors.Err? {
      IsTransientInChain(anchors.error);
    } else {
      DidNackedExactlyOnTransient(s, anchors.value);
    }
    assert COLON !in did ==> GetDidParts(did) == Err(Plain("invalid number of parts"));
  }

  /** The linkset of an anchor message could not be read: the error is the result, and nothing is changed. */
  lemma UnreadAnchorFails(s: Stores, anchor: AnchorInfo, read: Result<seq<Answers>, Error>)
    requires read.Err?
    ensures HandleAnchor(s, anchor, read) == Outcome([], Some(read.error))
    ensures AckNack(HandleAnchor(s, anchor, read).error) == Nacked <==> HasTransient(Chain(read.error))
  {
    IsTransientInChain(read.error);
  }

  /** The first of the steps of `processAnchor` that fails decides, whatever the later ones would answer: nothing is
      written, saved or posted, and its error is in the chain of the result. The steps are: reading the payload,
      finding the protocol client and version, taking the hash from the hashlink, verifying the credential,
      processing the transaction, looking for the saved link if there was no new operation, and the bulk write
      unless the anchor is a duplicate. */
  lemma EachErrorStops(s: Stores, anchor: AnchorInfo, a: Answers)
    ensures a.payload.Err? ==> StoppedBy(s, anchor, a, a.payload.error)
    ensures a.payload.Ok? && a.protocolClient.Some? ==> StoppedBy(s, anchor, a, a.protocolClient.value)
    ensures a.payload.Ok? && a.protocolClient.None? && a.protocolVersion.Some? ==>
              StoppedBy(s, anchor, a, a.protocolVersion.value)
    ensures a.payload.Ok? && a.protocolClient.None? && a.protocolVersion.None? ==>
              (!Hashlink.HasPrefix(anchor.hashlink) ==> Stopped(s, anchor, a))
    ensures SetUp(anchor, a) && a.credential.Some? ==> StoppedBy(s, anchor, a, a.credential.value)
    ensures SetUp(anchor, a) && a.credential.None? && a.processed.Err? ==> StoppedBy(s, anchor, a, a.processed.error)
    ensures SetUp(anchor, a) && a.credential.None? && a.processed == Ok(0) && a.getLinks.Some? ==>
              StoppedBy(s, anchor, a, a.getLinks.value)
    ensures ReadyToWrite(s, anchor, a) && a.payload.value == [] ==> Stopped(s, anchor, a)
    ensures ReadyToWrite(s, anchor, a) && a.payload.value != [] && a.putBulk.Some? ==>
              StoppedBy(s, anchor, a, a.putBulk.value)
  {
  }

  /** Everything up to the bulk write has succeeded, and the anchor is not a duplicate. */
  predicate ReadyToWrite(s: Stores, anchor: AnchorInfo, a: Answers) {
    && SetUp(anchor, a) && a.credential.None? && a.processed.Ok?
    && (a.processed.value == 0 ==> a.getLinks.None? && anchor.hashlink !in s.links)
  }

  /** Everything up to the credential has succeeded. */
  predicate SetUp(anchor: AnchorInfo, a: Answers) {
    a.payload.Ok? && a.protocolClient.None? && a.protocolVersion.None? && Hashlink.HasPrefix(anchor.hashlink)
  }

  predicate Stopped(s: Stores, anchor: AnchorInfo, a: Answers) {
    var o := ProcessAnchor(s, anchor, a);
    o.effects == [] && o.error.Some?
  }

  predicate StoppedBy(s: Stores, anchor: AnchorInfo, a: Answers, e: Error) {
    var o := ProcessAnchor(s, anchor, a);
    o.effects == [] && o.error.Some? && o.error.value.Wrapped? && o.error.value.cause == e
  }

  /** If nothing fails, an anchor that is not a duplicate becomes the latest one of all its suffixes; its link is
      saved if its URL parses and the store takes it; and the server it is attributed to, if any, is sent a 'Like'
      that names the anchor and, as the result, the local hashlink. */
  lemma SuccessfulAnchor(s: Stores, anchor: AnchorInfo, a: Answers)
    requires ReadyToWrite(s, anchor, a) && a.payload.value != [] && a.putBulk.None?
    ensures var o := ProcessAnchor(s, anchor, a);
            var t := ApplyAll(s, o.effects);
            && o.error.None?
            && (forall p :: p in a.payload.value ==> p.suffix in t.didAnchors && t.didAnchors[p.suffix] == anchor.hashlink)
            && (anchor.hashlink in t.links <==> anchor.hashlink in s.links || (a.urlParses && a.putLinks.None?))
            && t.outbox == s.outbox +
                 (if a.urlParses && anchor.attributedTo != [] && a.recipients.Ok? && a.post.None?
                  then [Like(a.recipients.value, anchor.hashlink, anchor.localHashlink)] else [])
  {
    ProcessedState(s, anchor, a);
    ProcessedOutbox(s, anchor, a);
    var previous := a.payload.value;
    forall p | p in previous
      ensures p.suffix in PutAll(s.didAnchors, Suffixes(previous), anchor.hashlink) &&
              PutAll(s.didAnchors, Suffixes(previous), anchor.hashlink)[p.suffix] == anchor.hashlink
    {
      var i :| 0 <= i < |previous| && previous[i] == p;
      assert Suffixes(previous)[i] == p.suffix;
      PutAllAt(s.didAnchors, Suffixes(previous), anchor.hashlink, p.suffix);
    }
  }

  lemma ProcessedOutbox(s: Stores, anchor: AnchorInfo, a: Answers)
    requires ProcessAnchor(s, anchor, a).error.None? && !IsDuplicate(s, anchor.hashlink, a)
    ensures ApplyAll(s, ProcessAnchor(s, anchor, a).effects).outbox ==
            s.outbox + (if a.urlParses && anchor.attributedTo != [] && a.recipients.Ok? && a.post.None?
                        then [Like(a.recipients.value, anchor.hashlink, anchor.localHashlink)] else [])
  {
    var bulk := PutBulk(Suffixes(a.payload.value), anchor.hashlink);
    var effects := ProcessAnchor(s, anchor, a).effects;
    assert effects == [bulk] + SaveAndLike(anchor, a);
    assert effects[1..] == SaveAndLike(anchor, a);
    SavedAndLiked(Apply(s, bulk), anchor, a);
  }

  // ---------------------------------------------------------------------------------------------
  // Runs

  /** One thing that happens: an anchor message or a DID message is delivered (and the server may crash after
      some of its effects, before the message is acknowledged), or somebody else puts or deletes a link.
      Redelivery is another delivery of the same message. */
  datatype Event =
    | Deliver(anchor: AnchorInfo, read: Result<seq<Answers>, Error>, crashAfter: Option<nat>)
    | DeliverDid(did: Bytes, anchors: Result<seq<DidAnchor>, Error>, crashAfter: Option<nat>)
    | PutForeignLink(link: HL)
    | DeleteLink(link: HL)

  function Delivered(s: Stores, e: Event): Outcome
    requires e.Deliver? || e.DeliverDid?
  {
    if e.Deliver? then HandleAnchor(s, e.anchor, e.read) else ProcessDID(s, e.did, e.anchors)
  }

  /** The effects made before the crash, if there is one. */
  function UntilCrash(effects: seq<Effect>, crashAfter: Option<nat>): seq<Effect> {
    if crashAfter.Some? && crashAfter.value < |effects| then effects[..crashAfter.value] else effects
  }

  function Without(links: seq<HL>, link: HL): seq<HL> {
    if links == [] then []
    else (if links[0] == link then [] else [links[0]]) + Without(links[1..], link)
  }

  function Happens(s: Stores, e: Event): Stores {
    match e
    case Deliver(_, _, crashAfter) => ApplyAll(s, UntilCrash(Delivered(s, e).effects, crashAfter))
    case DeliverDid(_, _, crashAfter) => ApplyAll(s, UntilCrash(Delivered(s, e).effects, crashAfter))
    case PutForeignLink(link) => Apply(s, PutLink(link)).(foreign := s.foreign + {link})
    case DeleteLink(link) => s.(links := Without(s.links, link))
  }

  function After(s: Stores, events: seq<Event>): Stores
    decreases |events|
  {
    if events == [] then s else After(Happens(s, events[0]), events[1..])
  }

  /** Every saved link belongs to an anchor whose bulk write succeeded, unless somebody else put it. */
  ghost predicate LinksAreWritten(s: Stores) {
    forall l :: l in s.links ==> l in s.written || l in s.foreign
  }

  lemma {:induction false} WithoutOnlyRemoves(links: seq<HL>, link: HL)
    ensures forall l :: l in Without(links, link) ==> l in links
  {
    if links != [] {
      WithoutOnlyRemoves(links[1..], link);
    }
  }

  /** A link is put only after a bulk write of the same anchor. */
  ghost predicate WritesFirst(effects: seq<Effect>) {
    forall i :: 0 <= i < |effects| && effects[i].PutLink? ==> WrittenBefore(effects, i, effects[i].link)
  }

  ghost predicate WrittenBefore(effects: seq<Effect>, i: nat, link: HL)
    requires i <= |effects|
  {
    exists j :: 0 <= j < i && effects[j].PutBulk? && effects[j].anchor == link
  }

  lemma WritesFirstConcat(a: seq<Effect>, b: seq<Effect>)
    requires WritesFirst(a) && WritesFirst(b)
    ensures WritesFirst(a + b)
  {
    var c := a + b;
    forall i | 0 <= i < |c| && c[i].PutLink? ensures WrittenBefore(c, i, c[i].link) {
      if i < |a| {
        assert WrittenBefore(a, i, a[i].link);
        var j :| 0 <= j < i && a[j].PutBulk? && a[j].anchor == a[i].link;
        assert c[j] == a[j];
      } else {
        assert WrittenBefore(b, i - |a|, b[i - |a|].link);
        var j :| 0 <= j < i - |a| && b[j].PutBulk? && b[j].anchor == b[i - |a|].link;
        assert c[|a| + j] == b[j];
      }
    }
  }

  lemma AnchorWritesFirst(s: Stores, anchor: AnchorInfo, a: Answers)
    ensures var effects := ProcessAnchor(s, anchor, a).effects;
            && WritesFirst(effects)
            && (effects != [] ==> effects[0] == PutBulk(Suffixes(a.payload.value), anchor.hashlink))
  {
    var effects := ProcessAnchor(s, anchor, a).effects;
    forall i | 0 <= i < |effects| && effects[i].PutLink? ensures WrittenBefore(effects, i, effects[i].link) {
      assert effects[0].PutBulk? && effects[0].anchor == effects[i].link;
    }
  }

  lemma {:induction false} LinksWriteFirst(s: Stores, anchor: AnchorInfo, links: seq<Answers>)
    ensures WritesFirst(ProcessLinks(s, anchor, links).effects)
    decreases |links|
  {
    if links != [] {
      var first := ProcessAnchor(s, anchor, links[0]);
      var t := ApplyAll(s, first.effects);
      AnchorWritesFirst(s, anchor, links[0]);
      LinksWriteFirst(t, anchor, links[1..]);
      WritesFirstConcat(first.effects, ProcessLinks(t, anchor, links[1..]).effects);
    }
  }

  lemma {:induction false} DidWritesFirst(s: Stores, anchors: seq<DidAnchor>)
    ensures WritesFirst(ProcessDidAnchors(s, anchors).effects)
    decreases |anchors|
  {
    if anchors != [] {
      var info := AnchorInfo(anchors[0].cid, [], []);
      var first := ProcessAnchor(s, info, anchors[0].answers);
      var t := ApplyAll(s, first.effects);
      AnchorWritesFirst(s, info, anchors[0].answers);
      DidWritesFirst(t, anchors[1..]);
      WritesFirstConcat(first.effects, ProcessDidAnchors(t, anchors[1..]).effects);
    }
  }

  /** Bulk writes are remembered, and nothing else touches the history. */
  lemma {:induction false} WrittenAfter(s: Stores, effects: seq<Effect>)
    ensures var t := ApplyAll(s, effects);
            && s.written <= t.written && t.foreign == s.foreign
            && forall j :: 0 <= j < |effects| && effects[j].PutBulk? ==> effects[j].anchor in t.written
    decreases |effects|
  {
    if effects != [] {
      WrittenAfter(Apply(s, effects[0]), effects[1..]);
      assert forall j :: 0 < j < |effects| ==> effects[j] == effects[1..][j - 1];
    }
  }

  lemma {:induction false} WritesFirstKeepsLinksWritten(s: Stores, effects: seq<Effect>)
    requires LinksAreWritten(s) && WritesFirst(effects)
    ensures LinksAreWritten(ApplyAll(s, effects))
    decreases |effects|
  {
    if effects != [] {
      var n := |effects| - 1;
      var front, last := effects[..n], effects[n];
      assert effects == front + [last];
      WritesFirstPrefix(effects, n);
      WritesFirstKeepsLinksWritten(s, front);
      WrittenAfter(s, front);
      ApplyAllConcat(s, front, [last]);
      assert ApplyAll(ApplyAll(s, front), [last]) == Apply(ApplyAll(s, front), last);
      if last.PutLink? {
        assert WrittenBefore(effects, n, last.link);
        var j :| 0 <= j < n && effects[j].PutBulk? && effects[j].anchor == last.link;
        assert front[j] == effects[j];
      }
    }
  }

  /** With a single link, handling the linkset is processing that link. */
  lemma SingleLink(s: Stores, anchor: AnchorInfo, a: Answers)
    ensures HandleAnchor(s, anchor, Ok([a])) == ProcessAnchor(s, anchor, a)
  {
    var o := ProcessAnchor(s, anchor, a);
    assert ProcessLinks(ApplyAll(s, o.effects), anchor, [a][1..]) == Outcome([], None);
    assert o.effects + [] == o.effects;
  }

  lemma EventKeepsLinksWritten(s: Stores, e: Event)
    requires LinksAreWritten(s)
    ensures LinksAreWritten(Happens(s, e))
    ensures s.written <= Happens(s, e).written && s.foreign <= Happens(s, e).foreign
  {
    match e
    case Deliver(anchor, read, crashAfter) =>
      if read.Ok? {
        LinksWriteFirst(s, anchor, read.value);
      }
      CrashKeepsLinksWritten(s, Delivered(s, e).effects, crashAfter);
    case DeliverDid(_, anchors, crashAfter) =>
      if anchors.Ok? {
        DidWritesFirst(s, anchors.value);
      }
      CrashKeepsLinksWritten(s, Delivered(s, e).effects, crashAfter);
    case PutForeignLink(link) =>
    case DeleteLink(link) => WithoutOnlyRemoves(s.links, link);
  }

  lemma CrashKeepsLinksWritten(s: Stores, effects: seq<Effect>, crashAfter: Option<nat>)
    requires LinksAreWritten(s) && WritesFirst(effects)
    ensures var t := ApplyAll(s, UntilCrash(effects, crashAfter));
            LinksAreWritten(t) && s.written <= t.written && t.foreign == s.foreign
  {
    var made := UntilCrash(effects, crashAfter);
    if made != effects {
      WritesFirstPrefix(effects, |made|);
    }
    WritesFirstKeepsLinksWritten(s, made);
    WrittenAfter(s, made);
  }

  lemma WritesFirstPrefix(effects: seq<Effect>, n: nat)
    requires WritesFirst(effects) && n <= |effects|
    ensures WritesFirst(effects[..n])
  {
    var made := effects[..n];
    forall i | 0 <= i < n && made[i].PutLink? ensures WrittenBefore(made, i, made[i].link) {
      assert effects[i] == made[i];
      assert WrittenBefore(effects, i, effects[i].link);
      var j :| 0 <= j < i && effects[j].PutBulk? && effects[j].anchor == effects[i].link;
      assert made[j] == effects[j];
    }
  }

  lemma {:induction false} RunKeepsLinksWritten(s: Stores, events: seq<Event>)
    requires LinksAreWritten(s)
    ensures LinksAreWritten(After(s, events))
    decreases |events|
  {
    if events != [] {
      EventKeepsLinksWritten(s, events[0]);
      RunKeepsLinksWritten(Happens(s, events[0]), events[1..]);
    }
  }

  /** Processing a link without an error leaves its anchor written, or saved by somebody else. */
  lemma ProcessedIsWritten(s: Stores, anchor: AnchorInfo, a: Answers)
    requires LinksAreWritten(s) && ProcessAnchor(s, anchor, a).error.None?
    ensures var t := ApplyAll(s, ProcessAnchor(s, anchor, a).effects);
            anchor.hashlink in t.written || anchor.hashlink in t.foreign
  {
    AnchorWritesFirst(s, anchor, a);
    WrittenAfter(s, ProcessAnchor(s, anchor, a).effects);
  }

  /** No lost anchor: over every run of deliveries, provider failures, crashes, redeliveries and changes of
      the link store by others, when a delivery of an anchor with at least one link ends with a nil result,
      a did-anchor bulk write of that anchor has succeeded, in this attempt or an earlier one, unless
      somebody else had saved that very hashlink. */
  lemma NoLostAnchor(s: Stores, events: seq<Event>, last: Event)
    requires s.links == []
    requires last.Deliver? && last.crashAfter.None? && (last.read.Ok? ==> last.read.value != [])
    requires Delivered(After(s, events), last).error.None?
    ensures var t := Happens(After(s, events), last);
            last.anchor.hashlink in t.written || last.anchor.hashlink in t.foreign
  {
    RunKeepsLinksWritten(s, events);
    var u := After(s, events);
    var links := last.read.value;
    var first := ProcessAnchor(u, last.anchor, links[0]);
    var t := ApplyAll(u, first.effects);
    var others := ProcessLinks(t, last.anchor, links[1..]).effects;
    ProcessedIsWritten(u, last.anchor, links[0]);
    ApplyAllConcat(u, first.effects, others);
    WrittenAfter(t, others);
  }

  /** The same for a DID message: of the DID's anchors, only those that fail with a persistent error are
      passed over. */
  lemma NoLostDidAnchor(s: Stores, events: seq<Event>, last: Event, i: nat)
    requires s.links == []
    requires last.DeliverDid? && last.crashAfter.None?
    requires Delivered(After(s, events), last).error.None?
    requires last.anchors.Ok? && i < |last.anchors.value|
    ensures var u := After(s, events);
            var t, cid := Happens(u, last), last.anchors.value[i].cid;
            cid in t.written || cid in t.foreign || DidAnchorError(u, last.anchors.value, i).Some?
  {
    RunKeepsLinksWritten(s, events);
    DidAnchorIsWritten(After(s, events), last.anchors.value, i);
  }

  lemma {:induction false} DidAnchorIsWritten(s: Stores, anchors: seq<DidAnchor>, i: nat)
    requires LinksAreWritten(s) && i < |anchors| && ProcessDidAnchors(s, anchors).error.None?
    ensures var t := ApplyAll(s, ProcessDidAnchors(s, anchors).effects);
            anchors[i].cid in t.written || anchors[i].cid in t.foreign || DidAnchorError(s, anchors, i).Some?
    decreases i
  {
    var info := AnchorInfo(anchors[0].cid, [], []);
    var first := ProcessAnchor(s, info, anchors[0].answers);
    var t := ApplyAll(s, first.effects);
    var others := ProcessDidAnchors(t, anchors[1..]).effects;
    ApplyAllConcat(s, first.effects, others);
    if i == 0 {
      if first.error.None? {
        ProcessedIsWritten(s, info, anchors[0].answers);
        WrittenAfter(t, others);
      }
    } else {
      AnchorWritesFirst(s, info, anchors[0].answers);
      WritesFirstKeepsLinksWritten(s, first.effects);
      DidAnchorIsWritten(t, anchors[1..], i - 1);
    }
  }

  /** What saving the link and posting the 'Like' leave. */
  lemma SavedAndLiked(s: Stores, anchor: AnchorInfo, a: Answers)
    ensures var saved := a.urlParses && a.putLinks.None? && anchor.hashlink !in s.links;
            var liked := a.urlParses && anchor.attributedTo != [] && a.recipients.Ok? && a.post.None?;
            ApplyAll(s, SaveAndLike(anchor, a)) ==
            s.(links := if saved then s.links + [anchor.hashlink] else s.links,
               outbox := if liked
                         then s.outbox + [Like(a.recipients.value, anchor.hashlink, anchor.localHashlink)]
                         else s.outbox)
  {
    var effects := SaveAndLike(anchor, a);
    if |effects| == 2 {
      assert effects[1..] == [effects[1]];
      var t := Apply(s, effects[0]);
      assert ApplyAll(t, effects[1..]) == Apply(t, effects[1]);
    } else if |effects| == 1 {
      assert effects[1..] == [];
    }
  }

  // ---------------------------------------------------------------------------------------------
  // Foreign links

  /** Answers of providers that all succeed, with the given number of operations and one suffix. */
  function Success(suffix: Bytes, operations: nat): Answers {
    Answers(Ok([SuffixAnchor(suffix, [])]), None, None, None, Ok(operations), None, None, true, None,
            Err(Plain("no recipients")), None)
  }

  lemma SuccessDoesNotFail(s: Stores, hl: HL, suffix: Bytes, operations: nat)
    requires Hashlink.HasPrefix(hl)
    ensures Failure(s, hl, Success(suffix, operations)).None?
    ensures Suffixes(Success(suffix, operations).payload.value) == [suffix]
  {
  }

  /** The exception in the guarantee is real: if somebody else has saved the hashlink, a delivery that brings no
      new operation ends with nil although no bulk write of the anchor was ever made. */
  lemma ForeignLinkHidesAnAnchor(s: Stores, anchor: AnchorInfo, suffix: Bytes)
    requires Hashlink.HasPrefix(anchor.hashlink) && s.links == [] && anchor.hashlink !in s.written
    ensures var u := Happens(s, PutForeignLink(anchor.hashlink));
            var e := Deliver(anchor, Ok([Success(suffix, 0)]), None);
            && Delivered(u, e) == Outcome([], None)
            && anchor.hashlink !in Happens(u, e).written
  {
    var u := Happens(s, PutForeignLink(anchor.hashlink));
    SuccessDoesNotFail(u, anchor.hashlink, suffix, 0);
    SingleLink(u, anchor, Success(suffix, 0));
  }

  // ---------------------------------------------------------------------------------------------
  // Several links in one linkset

  lemma {:induction false} PutAllAt(m: map<Bytes, HL>, suffixes: seq<Bytes>, anchor: HL, x: Bytes)
    ensures x in suffixes ==> x in PutAll(m, suffixes, anchor) && PutAll(m, suffixes, anchor)[x] == anchor
    ensures x !in suffixes ==> Unchanged(m, PutAll(m, suffixes, anchor), x)
    decreases |suffixes|
  {
    if suffixes != [] {
      PutAllAt(m[suffixes[0] := anchor], suffixes[1..], anchor, x);
      assert suffixes == [suffixes[0]] + suffixes[1..];
    }
  }

  /** The suffix has the same latest anchor in both, or none. */
  predicate Unchanged(m: map<Bytes, HL>, n: map<Bytes, HL>, x: Bytes) {
    (x in m <==> x in n) && (x in m && x in n ==> m[x] == n[x])
  }

  /** The link gets saved when it is processed. */
  predicate Saves(a: Answers) {
    a.urlParses && a.putLinks.None?
  }

  /** What processing a link without an error leaves. */
  lemma ProcessedState(s: Stores, anchor: AnchorInfo, a: Answers)
    requires ProcessAnchor(s, anchor, a).error.None?
    ensures var t := ApplyAll(s, ProcessAnchor(s, anchor, a).effects);
            if IsDuplicate(s, anchor.hashlink, a) then t == s
            else
              && a.payload.Ok?
              && t.didAnchors == PutAll(s.didAnchors, Suffixes(a.payload.value), anchor.hashlink)
              && t.links == (if Saves(a) && anchor.hashlink !in s.links then s.links + [anchor.hashlink] else s.links)
  {
    if !IsDuplicate(s, anchor.hashlink, a) {
      var bulk := PutBulk(Suffixes(a.payload.value), anchor.hashlink);
      var effects := ProcessAnchor(s, anchor, a).effects;
      assert effects == [bulk] + SaveAndLike(anchor, a);
      assert effects[1..] == SaveAndLike(anchor, a);
      SavedAndLiked(Apply(s, bulk), anchor, a);
    }
  }

  /** The stores when link i is processed. */
  function StoresAt(s: Stores, anchor: AnchorInfo, links: seq<Answers>, i: nat): Stores
    requires i < |links|
    decreases i
  {
    if i == 0 then s
    else StoresAt(ApplyAll(s, ProcessAnchor(s, anchor, links[0]).effects), anchor, links[1..], i - 1)
  }

  /** What link i itself does. */
  function OwnEffects(s: Stores, anchor: AnchorInfo, links: seq<Answers>, i: nat): seq<Effect>
    requires i < |links|
  {
    ProcessAnchor(StoresAt(s, anchor, links, i), anchor, links[i]).effects
  }

  /** Link i brings no new operation, and the hashlink was saved before or by an earlier link. */
  predicate Dropped(s: Stores, anchor: AnchorInfo, links: seq<Answers>, i: nat)
    requires i < |links|
  {
    links[i].processed == Ok(0) && (anchor.hashlink in s.links || SavedByOneOf(links[..i]))
  }

  predicate SavedByOneOf(links: seq<Answers>) {
    exists j :: 0 <= j < |links| && Saves(links[j])
  }

  lemma SavedByFirstOrLater(links: seq<Answers>)
    requires links != []
    ensures SavedByOneOf(links) <==> Saves(links[0]) || SavedByOneOf(links[1..])
  {
    if SavedByOneOf(links[1..]) {
      var j :| 0 <= j < |links[1..]| && Saves(links[1..][j]);
      assert Saves(links[j + 1]);
    }
    if SavedByOneOf(links) && !Saves(links[0]) {
      var j :| 0 <= j < |links| && Saves(links[j]);
      assert links[1..][j - 1] == links[j];
    }
  }

  /** Whether a link is dropped, seen from the second link on. */
  lemma DroppedAfterFirst(s: Stores, anchor: AnchorInfo, links: seq<Answers>, i: nat)
    requires 0 < i < |links| && ProcessAnchor(s, anchor, links[0]).error.None?
    ensures var t := ApplyAll(s, ProcessAnchor(s, anchor, links[0]).effects);
            Dropped(s, anchor, links, i) <==> Dropped(t, anchor, links[1..], i - 1)
  {
    ProcessedState(s, anchor, links[0]);
    SavedByFirstOrLater(links[..i]);
    assert links[..i][1..] == links[1..][..i - 1];
  }

  /** Which links of a linkset count, for a linkset of any length that is processed without an error: link i
      writes its suffixes, and then saves the hashlink and posts its 'Like', if and only if it is not dropped;
      a dropped link does nothing. */
  lemma {:induction false} LinkIsWrittenIffNotDropped(s: Stores, anchor: AnchorInfo, links: seq<Answers>, i: nat)
    requires ProcessLinks(s, anchor, links).error.None? && i < |links|
    ensures var own := OwnEffects(s, anchor, links, i);
            && (Dropped(s, anchor, links, i) ==> own == [])
            && (!Dropped(s, anchor, links, i) ==>
                  && links[i].payload.Ok?
                  && own == [PutBulk(Suffixes(links[i].payload.value), anchor.hashlink)] + SaveAndLike(anchor, links[i]))
    decreases i
  {
    if i == 0 {
      assert !SavedByOneOf(links[..0]);
    } else {
      var t := ApplyAll(s, ProcessAnchor(s, anchor, links[0]).effects);
      LinkIsWrittenIffNotDropped(t, anchor, links[1..], i - 1);
      DroppedAfterFirst(s, anchor, links, i);
    }
  }

  /** The effects of a linkset are those of its links, one after the other. */
  lemma {:induction false} EffectsOfLinkset(s: Stores, anchor: AnchorInfo, links: seq<Answers>)
    requires ProcessLinks(s, anchor, links).error.None?
    ensures ProcessLinks(s, anchor, links).effects == OwnEffectsFrom(s, anchor, links, 0)
    decreases |links|
  {
    if links != [] {
      var t := ApplyAll(s, ProcessAnchor(s, anchor, links[0]).effects);
      EffectsOfLinkset(t, anchor, links[1..]);
      OwnEffectsAfterFirst(s, anchor, links, 1);
    }
  }

  /** What the links from i on do. */
  function OwnEffectsFrom(s: Stores, anchor: AnchorInfo, links: seq<Answers>, i: nat): seq<Effect>
    requires i <= |links|
    decreases |links| - i
  {
    if i == |links| then [] else OwnEffects(s, anchor, links, i) + OwnEffectsFrom(s, anchor, links, i + 1)
  }

  lemma {:induction false} OwnEffectsAfterFirst(s: Stores, anchor: AnchorInfo, links: seq<Answers>, i: nat)
    requires 0 < i <= |links|
    ensures var t := ApplyAll(s, ProcessAnchor(s, anchor, links[0]).effects);
            OwnEffectsFrom(s, anchor, links, i) == OwnEffectsFrom(t, anchor, links[1..], i - 1)
    decreases |links| - i
  {
    if i < |links| {
      OwnEffectsAfterFirst(s, anchor, links, i + 1);
    }
  }

  /** One of the links that are not dropped has the suffix. */
  ghost predicate WrittenByOneOf(s: Stores, anchor: AnchorInfo, links: seq<Answers>, x: Bytes) {
    exists i :: 0 <= i < |links| && WritesSuffix(s, anchor, links, i, x)
  }

  predicate WritesSuffix(s: Stores, anchor: AnchorInfo, links: seq<Answers>, i: nat, x: Bytes)
    requires i < |links|
  {
    !Dropped(s, anchor, links, i) && links[i].payload.Ok? && x in Suffixes(links[i].payload.value)
  }

  lemma WrittenByFirstOrLater(s: Stores, anchor: AnchorInfo, links: seq<Answers>, x: Bytes)
    requires links != [] && ProcessAnchor(s, anchor, links[0]).error.None?
    ensures var t := ApplyAll(s, ProcessAnchor(s, anchor, links[0]).effects);
            WrittenByOneOf(s, anchor, links, x) <==>
              WritesSuffix(s, anchor, links, 0, x) || WrittenByOneOf(t, anchor, links[1..], x)
  {
    var t := ApplyAll(s, ProcessAnchor(s, anchor, links[0]).effects);
    forall i | 0 < i < |links|
      ensures WritesSuffix(s, anchor, links, i, x) <==> WritesSuffix(t, anchor, links[1..], i - 1, x)
    {
      DroppedAfterFirst(s, anchor, links, i);
    }
    if WrittenByOneOf(t, anchor, links[1..], x) {
      var i :| 0 <= i < |links[1..]| && WritesSuffix(t, anchor, links[1..], i, x);
      assert WritesSuffix(s, anchor, links, i + 1, x);
    }
  }

  /** What a linkset of any length leaves when it is processed without an error: a suffix names the anchor if a
      link that is not dropped has it, and is unchanged otherwise. */
  lemma {:induction false} SuffixesAfterLinkset(s: Stores, anchor: AnchorInfo, links: seq<Answers>, x: Bytes)
    requires ProcessLinks(s, anchor, links).error.None?
    ensures var m := ApplyAll(s, ProcessLinks(s, anchor, links).effects).didAnchors;
            if WrittenByOneOf(s, anchor, links, x) then x in m && m[x] == anchor.hashlink
            else Unchanged(s.didAnchors, m, x)
    decreases |links|
  {
    if links != [] {
      var first := ProcessAnchor(s, anchor, links[0]);
      var t := ApplyAll(s, first.effects);
      var others := ProcessLinks(t, anchor, links[1..]);
      SuffixesAfterLinkset(t, anchor, links[1..], x);
      ApplyAllConcat(s, first.effects, others.effects);
      ProcessedState(s, anchor, links[0]);
      WrittenByFirstOrLater(s, anchor, links, x);
      assert !SavedByOneOf(links[..0]);
      if first.error.None? && !IsDuplicate(s, anchor.hashlink, links[0]) {
        PutAllAt(s.didAnchors, Suffixes(links[0].payload.value), anchor.hashlink, x);
      }
    }
  }

  /** So the second of two links can be lost: its suffix is left alone, with a nil result, if the first link saves
      the hashlink and the second brings no new operation. */
  lemma SecondLinkCanBeLost(s: Stores, anchor: AnchorInfo, x: Bytes, y: Bytes)
    requires Hashlink.HasPrefix(anchor.hashlink) && x != y && anchor.hashlink !in s.links
    ensures var o := HandleAnchor(s, anchor, Ok([Success(x, 1), Success(y, 0)]));
            o.error.None? && Unchanged(s.didAnchors, ApplyAll(s, o.effects).didAnchors, y)
  {
    var a, b := Success(x, 1), Success(y, 0);
    var t := ApplyAll(s, ProcessAnchor(s, anchor, a).effects);
    SuccessDoesNotFail(s, anchor.hashlink, x, 1);
    SuccessDoesNotFail(t, anchor.hashlink, y, 0);
    assert [a, b][1..] == [b];
    SingleLink(t, anchor, b);
    assert Saves([a, b][..1][0]);
    assert Dropped(s, anchor, [a, b], 1);
    assert !WritesSuffix(s, anchor, [a, b], 0, y);
    SuffixesAfterLinkset(s, anchor, [a, b], y);
  }

  // ---------------------------------------------------------------------------------------------
  // Likes

  /** Every 'Like' is for an anchor whose bulk write has succeeded. */
  ghost predicate LikesAreEarned(s: Stores) {
    forall l :: l in s.outbox ==> l.anchor in s.written
  }

  /** A 'Like' is posted only after a bulk write of the anchor it names. */
  ghost predicate LikesFollow(effects: seq<Effect>) {
    forall i :: 0 <= i < |effects| && effects[i].Post? ==> WrittenBefore(effects, i, effects[i].like.anchor)
  }

  lemma LikesFollowConcat(a: seq<Effect>, b: seq<Effect>)
    requires LikesFollow(a) && LikesFollow(b)
    ensures LikesFollow(a + b)
  {
    var c := a + b;
    forall i | 0 <= i < |c| && c[i].Post? ensures WrittenBefore(c, i, c[i].like.anchor) {
      if i < |a| {
        assert WrittenBefore(a, i, a[i].like.anchor);
        var j :| 0 <= j < i && a[j].PutBulk? && a[j].anchor == a[i].like.anchor;
        assert c[j] == a[j];
      } else {
        assert WrittenBefore(b, i - |a|, b[i - |a|].like.anchor);
        var j :| 0 <= j < i - |a| && b[j].PutBulk? && b[j].anchor == b[i - |a|].like.anchor;
        assert c[|a| + j] == b[j];
      }
    }
  }

  lemma AnchorLikesFollow(s: Stores, anchor: AnchorInfo, a: Answers)
    ensures LikesFollow(ProcessAnchor(s, anchor, a).effects)
  {
    var effects := ProcessAnchor(s, anchor, a).effects;
    forall i | 0 <= i < |effects| && effects[i].Post? ensures WrittenBefore(effects, i, effects[i].like.anchor) {
      assert effects[0].PutBulk? && effects[0].anchor == effects[i].like.anchor;
    }
  }

  lemma {:induction false} LinksLikesFollow(s: Stores, anchor: AnchorInfo, links: seq<Answers>)
    ensures LikesFollow(ProcessLinks(s, anchor, links).effects)
    decreases |links|
  {
    if links != [] {
      var first := ProcessAnchor(s, anchor, links[0]);
      var t := ApplyAll(s, first.effects);
      AnchorLikesFollow(s, anchor, links[0]);
      LinksLikesFollow(t, anchor, links[1..]);
      LikesFollowConcat(first.effects, ProcessLinks(t, anchor, links[1..]).effects);
    }
  }

  /** DID messages post nothing, since nobody is known to have sent the anchors. */
  lemma {:induction false} DidPostsNothing(s: Stores, anchors: seq<DidAnchor>)
    ensures forall i :: 0 <= i < |ProcessDidAnchors(s, anchors).effects| ==>
              !ProcessDidAnchors(s, anchors).effects[i].Post?
    decreases |anchors|
  {
    if anchors != [] {
      var first := ProcessAnchor(s, AnchorInfo(anchors[0].cid, [], []), anchors[0].answers);
      assert forall i :: 0 <= i < |first.effects| ==> !first.effects[i].Post?;
      DidPostsNothing(ApplyAll(s, first.effects), anchors[1..]);
    }
  }

  lemma {:induction false} EffectsKeepLikesEarned(s: Stores, effects: seq<Effect>)
    requires LikesAreEarned(s) && LikesFollow(effects)
    ensures LikesAreEarned(ApplyAll(s, effects))
    decreases |effects|
  {
    if effects != [] {
      var n := |effects| - 1;
      var front, last := effects[..n], effects[n];
      assert effects == front + [last];
      LikesFollowPrefix(effects, n);
      EffectsKeepLikesEarned(s, front);
      WrittenAfter(s, front);
      ApplyAllConcat(s, front, [last]);
      assert ApplyAll(ApplyAll(s, front), [last]) == Apply(ApplyAll(s, front), last);
      if last.Post? {
        assert WrittenBefore(effects, n, last.like.anchor);
        var j :| 0 <= j < n && effects[j].PutBulk? && effects[j].anchor == last.like.anchor;
        assert front[j] == effects[j];
      }
    }
  }

  lemma LikesFollowPrefix(effects: seq<Effect>, n: nat)
    requires LikesFollow(effects) && n <= |effects|
    ensures LikesFollow(effects[..n])
  {
    var made := effects[..n];
    forall i | 0 <= i < n && made[i].Post? ensures WrittenBefore(made, i, made[i].like.anchor) {
      assert effects[i] == made[i];
      assert WrittenBefore(effects, i, effects[i].like.anchor);
      var j :| 0 <= j < i && effects[j].PutBulk? && effects[j].anchor == effects[i].like.anchor;
      assert made[j] == effects[j];
    }
  }

  lemma EventKeepsLikesEarned(s: Stores, e: Event)
    requires LikesAreEarned(s)
    ensures LikesAreEarned(Happens(s, e))
    ensures e.DeliverDid? ==> Happens(s, e).outbox == s.outbox
  {
    match e
    case Deliver(anchor, read, crashAfter) =>
      var effects := Delivered(s, e).effects;
      if read.Ok? {
        LinksLikesFollow(s, anchor, read.value);
      }
      LikesFollowPrefix(effects, |UntilCrash(effects, crashAfter)|);
      assert UntilCrash(effects, crashAfter) == effects[..|UntilCrash(effects, crashAfter)|];
      EffectsKeepLikesEarned(s, UntilCrash(effects, crashAfter));
    case DeliverDid(_, anchors, crashAfter) =>
      var effects := Delivered(s, e).effects;
      if anchors.Ok? {
        DidPostsNothing(s, anchors.value);
      }
      WrittenAfter(s, UntilCrash(effects, crashAfter));
      NoPostNoLike(s, UntilCrash(effects, crashAfter));
    case _ =>
  }

  lemma {:induction false} NoPostNoLike(s: Stores, effects: seq<Effect>)
    requires forall i :: 0 <= i < |effects| ==> !effects[i].Post?
    ensures ApplyAll(s, effects).outbox == s.outbox
    decreases |effects|
  {
    if effects != [] {
      NoPostNoLike(Apply(s, effects[0]), effects[1..]);
    }
  }

  /** Over every run of deliveries, crashes and changes by others, a 'Like' is only ever sent for an anchor that has
      been written as the latest one of its suffixes. */
  lemma {:induction false} EveryLikeIsEarned(s: Stores, events: seq<Event>)
    requires LikesAreEarned(s)
    ensures LikesAreEarned(After(s, events))
    decreases |events|
  {
    if events != [] {
      EventKeepsLikesEarned(s, events[0]);
      EveryLikeIsEarned(Happens(s, events[0]), events[1..]);
    }
  }

  // ---------------------------------------------------------------------------------------------
  // No rollback of a saved anchor

  lemma {:induction false} DuplicateLinksDoNothing(s: Stores, anchor: AnchorInfo, links: seq<Answers>)
    requires forall i :: 0 <= i < |links| ==> IsDuplicate(s, anchor.hashlink, links[i])
    ensures ProcessLinks(s, anchor, links).effects == []
    decreases |links|
  {
    if links != [] {
      assert ProcessAnchor(s, anchor, links[0]).effects == [];
      DuplicateLinksDoNothing(s, anchor, links[1..]);
    }
  }

  lemma {:induction false} LinksOnlyGrow(s: Stores, effects: seq<Effect>)
    ensures forall l :: l in s.links ==> l in ApplyAll(s, effects).links
    decreases |effects|
  {
    if effects != [] {
      LinksOnlyGrow(Apply(s, effects[0]), effects[1..]);
    }
  }

  lemma {:induction false} WithoutKeepsOthers(links: seq<HL>, link: HL, h: HL)
    requires h in links && h != link
    ensures h in Without(links, link)
  {
    if links[0] != h {
      assert links == [links[0]] + links[1..];
      WithoutKeepsOthers(links[1..], link, h);
    }
  }

  lemma EventKeepsSaved(s: Stores, e: Event, h: HL)
    requires h in s.links && e != DeleteLink(h)
    ensures h in Happens(s, e).links
  {
    match e
    case Deliver(_, _, crashAfter) => LinksOnlyGrow(s, UntilCrash(Delivered(s, e).effects, crashAfter));
    case DeliverDid(_, _, crashAfter) => LinksOnlyGrow(s, UntilCrash(Delivered(s, e).effects, crashAfter));
    case PutForeignLink(_) =>
    case DeleteLink(link) => WithoutKeepsOthers(s.links, link, h);
  }

  /** Nobody deletes the link. */
  predicate NeverDeleted(events: seq<Event>, h: HL) {
    forall i :: 0 <= i < |events| ==> events[i] != DeleteLink(h)
  }

  /** A saved link stays saved. */
  lemma {:induction false} SavedStays(s: Stores, events: seq<Event>, h: HL)
    requires h in s.links && NeverDeleted(events, h)
    ensures h in After(s, events).links
    decreases |events|
  {
    if events != [] {
      EventKeepsSaved(s, events[0], h);
      assert forall i :: 0 <= i < |events[1..]| ==> events[1..][i] == events[i + 1];
      SavedStays(Happens(s, events[0]), events[1..], h);
    }
  }

  /** Whenever the event processes anchor h, the transaction processor reports no new operation. */
  predicate BringsNothingNew(e: Event, h: HL) {
    match e
    case Deliver(anchor, read, _) =>
      anchor.hashlink == h && read.Ok? ==> forall i :: 0 <= i < |read.value| ==> read.value[i].processed == Ok(0)
    case DeliverDid(_, anchors, _) =>
      anchors.Ok? ==> forall i :: 0 <= i < |anchors.value| && anchors.value[i].cid == h ==>
        anchors.value[i].answers.processed == Ok(0)
    case _ => true
  }

  /** Once an anchor is saved, and as long as nobody deletes the link, any later delivery of it that brings no
      new operation changes neither the did-anchor map nor the link store nor the outbox, whatever has happened
      in between and whatever else the providers answer. */
  lemma SavedAnchorIsIgnored(s: Stores, events: seq<Event>, e: Event)
    requires e.Deliver? && e.anchor.hashlink in s.links && NeverDeleted(events, e.anchor.hashlink)
    requires BringsNothingNew(e, e.anchor.hashlink)
    ensures Happens(After(s, events), e) == After(s, events)
  {
    SavedStays(s, events, e.anchor.hashlink);
    if e.read.Ok? {
      DuplicateLinksDoNothing(After(s, events), e.anchor, e.read.value);
    }
  }

  /** None of the effects makes h the latest anchor of a suffix. */
  ghost predicate NeverWrites(effects: seq<Effect>, h: HL) {
    forall i :: 0 <= i < |effects| && effects[i].PutBulk? ==> effects[i].anchor != h
  }

  lemma AnchorWritesItself(s: Stores, anchor: AnchorInfo, a: Answers, h: HL)
    requires anchor.hashlink != h || IsDuplicate(s, h, a)
    ensures NeverWrites(ProcessAnchor(s, anchor, a).effects, h)
  {
  }

  lemma {:induction false} LinksWriteThemselves(s: Stores, anchor: AnchorInfo, links: seq<Answers>, h: HL)
    requires anchor.hashlink != h
    ensures NeverWrites(ProcessLinks(s, anchor, links).effects, h)
    decreases |links|
  {
    if links != [] {
      AnchorWritesItself(s, anchor, links[0], h);
      LinksWriteThemselves(ApplyAll(s, ProcessAnchor(s, anchor, links[0]).effects), anchor, links[1..], h);
    }
  }

  lemma {:induction false} DidWritesOthers(s: Stores, anchors: seq<DidAnchor>, h: HL)
    requires h in s.links
    requires forall i :: 0 <= i < |anchors| && anchors[i].cid == h ==> anchors[i].answers.processed == Ok(0)
    ensures NeverWrites(ProcessDidAnchors(s, anchors).effects, h)
    decreases |anchors|
  {
    if anchors != [] {
      var info := AnchorInfo(anchors[0].cid, [], []);
      var effects := ProcessAnchor(s, info, anchors[0].answers).effects;
      AnchorWritesItself(s, info, anchors[0].answers, h);
      LinksOnlyGrow(s, effects);
      DidWritesOthers(ApplyAll(s, effects), anchors[1..], h);
    }
  }

  /** Every suffix that names h after has named it before. */
  ghost predicate NamesNoMore(m: map<Bytes, HL>, n: map<Bytes, HL>, h: HL) {
    forall x :: x in n && n[x] == h ==> x in m && m[x] == h
  }

  lemma {:induction false} EffectsNameNoMore(s: Stores, effects: seq<Effect>, h: HL)
    requires NeverWrites(effects, h)
    ensures NamesNoMore(s.didAnchors, ApplyAll(s, effects).didAnchors, h)
    decreases |effects|
  {
    if effects != [] {
      var t := Apply(s, effects[0]);
      if effects[0].PutBulk? {
        forall x | x in t.didAnchors && t.didAnchors[x] == h ensures x in s.didAnchors && s.didAnchors[x] == h {
          PutAllAt(s.didAnchors, effects[0].suffixes, effects[0].anchor, x);
        }
      }
      EffectsNameNoMore(t, effects[1..], h);
    }
  }

  lemma EventNamesNoMore(s: Stores, e: Event, h: HL)
    requires h in s.links && BringsNothingNew(e, h)
    ensures NamesNoMore(s.didAnchors, Happens(s, e).didAnchors, h)
  {
    match e
    case Deliver(anchor, read, crashAfter) =>
      if read.Ok? {
        if anchor.hashlink == h {
          DuplicateLinksDoNothing(s, anchor, read.value);
        } else {
          LinksWriteThemselves(s, anchor, read.value, h);
        }
      }
      EffectsNameNoMore(s, UntilCrash(Delivered(s, e).effects, crashAfter), h);
    case DeliverDid(_, anchors, crashAfter) =>
      if anchors.Ok? {
        DidWritesOthers(s, anchors.value, h);
      }
      EffectsNameNoMore(s, UntilCrash(Delivered(s, e).effects, crashAfter), h);
    case _ =>
  }

  /** No rollback: once an anchor is saved, over every run in which nobody deletes its link and its redeliveries
      bring no new operation, it never again becomes the latest anchor of a suffix. Whatever newer anchor a
      suffix has come to name stays, or gives way to another one. */
  lemma {:induction false} NoRollback(s: Stores, events: seq<Event>, h: HL)
    requires h in s.links && NeverDeleted(events, h)
    requires forall i :: 0 <= i < |events| ==> BringsNothingNew(events[i], h)
    ensures NamesNoMore(s.didAnchors, After(s, events).didAnchors, h)
    decreases |events|
  {
    if events != [] {
      EventNamesNoMore(s, events[0], h);
      EventKeepsSaved(s, events[0], h);
      assert forall i :: 0 <= i < |events[1..]| ==> events[1..][i] == events[i + 1];
      NoRollback(Happens(s, events[0]), events[1..], h);
    }
  }

  // ---------------------------------------------------------------------------------------------
  // Rollback of an anchor that is not saved

  /** The exact condition for one delivery without new operations that does not fail: it makes the anchor the
      latest one of its suffixes again if and only if the hashlink is not saved. */
  lemma StaleDeliveryRewritesIffNotSaved(s: Stores, anchor: AnchorInfo, a: Answers, x: Bytes)
    requires a.processed == Ok(0) && Failure(s, anchor.hashlink, a).None?
    requires x in Suffixes(a.payload.value) && !(x in s.didAnchors && s.didAnchors[x] == anchor.hashlink)
    ensures var m := Happens(s, Deliver(anchor, Ok([a]), None)).didAnchors;
            && (x in m && m[x] == anchor.hashlink <==> anchor.hashlink !in s.links)
            && (Unchanged(s.didAnchors, m, x) <==> anchor.hashlink in s.links)
  {
    SingleLink(s, anchor, a);
    ProcessedState(s, anchor, a);
    PutAllAt(s.didAnchors, Suffixes(a.payload.value), anchor.hashlink, x);
  }

  /** Anchor A is delivered and the server crashes after the bulk write; the newer anchor B is delivered for the
      same suffix; then A is delivered again. */
  function RollbackRun(a: AnchorInfo, b: AnchorInfo, x: Bytes): seq<Event> {
    [Deliver(a, Ok([Success(x, 1)]), Some(1)), Deliver(b, Ok([Success(x, 1)]), None),
     Deliver(a, Ok([Success(x, 0)]), None)]
  }

  /** A redelivery after a crash rolls a suffix back: it named B, and names A again. */
  lemma CrashedDeliveryRollsBack(s: Stores, a: AnchorInfo, b: AnchorInfo, x: Bytes)
    requires Hashlink.HasPrefix(a.hashlink) && Hashlink.HasPrefix(b.hashlink) && a.hashlink != b.hashlink
    requires s.links == []
    ensures var run := RollbackRun(a, b, x);
            var u, t := After(s, run[..2]), After(s, run);
            && x in u.didAnchors && u.didAnchors[x] == b.hashlink
            && x in t.didAnchors && t.didAnchors[x] == a.hashlink
  {
    var run := RollbackRun(a, b, x);
    var s1 := Happens(s, run[0]);
    CrashAfterBulkWrite(s, a, x);
    var s2 := Happens(s1, run[1]);
    SuccessDoesNotFail(s1, b.hashlink, x, 1);
    SingleLink(s1, b, Success(x, 1));
    ProcessedState(s1, b, Success(x, 1));
    PutAllAt(s1.didAnchors, [x], b.hashlink, x);
    assert a.hashlink !in s2.links;
    SuccessDoesNotFail(s2, a.hashlink, x, 0);
    StaleDeliveryRewritesIffNotSaved(s2, a, Success(x, 0), x);
    AfterThree(s, run[0], run[1], run[2]);
  }

  lemma AfterThree(s: Stores, e: Event, f: Event, g: Event)
    ensures After(s, [e, f, g][..2]) == Happens(Happens(s, e), f)
    ensures After(s, [e, f, g]) == Happens(Happens(Happens(s, e), f), g)
  {
    assert [e, f, g][..2] == [e, f] && [e, f][1..] == [f] && [f][1..] == [];
    assert [e, f, g][1..] == [f, g] && [f, g][1..] == [g] && [g][1..] == [];
    assert After(Happens(Happens(s, e), f), []) == Happens(Happens(s, e), f);
    assert After(Happens(s, e), [f]) == Happens(Happens(s, e), f);
    var t := Happens(Happens(Happens(s, e), f), g);
    assert After(t, []) == t;
    assert After(Happens(Happens(s, e), f), [g]) == t;
    assert After(Happens(s, e), [f, g]) == t;
  }

  lemma CrashAfterBulkWrite(s: Stores, a: AnchorInfo, x: Bytes)
    requires Hashlink.HasPrefix(a.hashlink) && s.links == []
    ensures Happens(s, Deliver(a, Ok([Success(x, 1)]), Some(1))).links == []
  {
    SuccessDoesNotFail(s, a.hashlink, x, 1);
    SingleLink(s, a, Success(x, 1));
    var bulk := PutBulk([x], a.hashlink);
    var effects := ProcessAnchor(s, a, Success(x, 1)).effects;
    assert effects[0] == bulk;
    assert UntilCrash(effects, Some(1)) == [bulk];
    assert [bulk][1..] == [];
    assert ApplyAll(s, [bulk]) == Apply(s, bulk);
  }
}
