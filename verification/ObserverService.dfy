/** The observer and its message handlers as objects (pkg/observer/observer.go, pubsub.go), proved against
    the functions of module Observer. */
module ObserverService {
  import opened Common
  import opened ByteStrings
  import opened Errors
  import opened Observer
  import Hashlink

  /** The loop of `handleAnchor` has made `effects` on `s0` and has the links from i on left to process. */
  ghost predicate LinksLeft(s0: Stores, s: Stores, anchor: AnchorInfo, links: seq<Answers>, i: nat,
                            effects: seq<Effect>)
    requires i <= |links|
  {
    var o := ProcessLinks(s, anchor, links[i..]);
    && s == ApplyAll(s0, effects)
    && ProcessLinks(s0, anchor, links) == Outcome(effects + o.effects, o.error)
  }

  lemma NextLink(s0: Stores, s: Stores, anchor: AnchorInfo, links: seq<Answers>, i: nat, effects: seq<Effect>)
    requires i < |links| && LinksLeft(s0, s, anchor, links, i, effects)
    ensures var first := Observer.ProcessAnchor(s, anchor, links[i]);
            var t := ApplyAll(s, first.effects);
            && t == ApplyAll(s0, effects + first.effects)
            && (first.error.Some? ==>
                  ProcessLinks(s0, anchor, links) == Outcome(effects + first.effects, first.error))
            && (first.error.None? ==> LinksLeft(s0, t, anchor, links, i + 1, effects + first.effects))
  {
    var first := Observer.ProcessAnchor(s, anchor, links[i]);
    ApplyAllConcat(s0, effects, first.effects);
    FirstLink(s, anchor, links, i);
    Regroup(effects, first.effects, ProcessLinks(ApplyAll(s, first.effects), anchor, links[i + 1..]).effects);
    assert first.error.Some? ==> ProcessLinks(s, anchor, links[i..]) == first;
  }

  lemma Regroup(a: seq<Effect>, b: seq<Effect>, c: seq<Effect>)
    ensures a + (b + c) == (a + b) + c
  {
  }

  lemma FirstLink(s: Stores, anchor: AnchorInfo, links: seq<Answers>, i: nat)
    requires i < |links|
    ensures var first := Observer.ProcessAnchor(s, anchor, links[i]);
            var rest := ProcessLinks(ApplyAll(s, first.effects), anchor, links[i + 1..]);
            ProcessLinks(s, anchor, links[i..]) ==
            (if first.error.Some? then first else Outcome(first.effects + rest.effects, rest.error))
  {
    assert links[i..][1..] == links[i + 1..];
  }

  /** The loop of `processDID` has made `effects` on `s0` and has the anchors from i on left to process. */
  ghost predicate AnchorsLeft(s0: Stores, s: Stores, anchors: seq<DidAnchor>, i: nat, effects: seq<Effect>)
    requires i <= |anchors|
  {
    var o := ProcessDidAnchors(s, anchors[i..]);
    && s == ApplyAll(s0, effects)
    && ProcessDidAnchors(s0, anchors) == Outcome(effects + o.effects, o.error)
  }

  lemma NextAnchor(s0: Stores, s: Stores, anchors: seq<DidAnchor>, i: nat, effects: seq<Effect>)
    requires i < |anchors| && AnchorsLeft(s0, s, anchors, i, effects)
    ensures var first := Observer.ProcessAnchor(s, AnchorInfo(anchors[i].cid, [], []), anchors[i].answers);
            var t := ApplyAll(s, first.effects);
            && t == ApplyAll(s0, effects + first.effects)
            && (if first.error.Some? && IsTransient(first.error.value) then
                  ProcessDidAnchors(s0, anchors) ==
                  Outcome(effects + first.effects, Some(Wrapped("process out-of-system anchor", first.error.value)))
                else AnchorsLeft(s0, t, anchors, i + 1, effects + first.effects))
  {
    var first := Observer.ProcessAnchor(s, AnchorInfo(anchors[i].cid, [], []), anchors[i].answers);
    ApplyAllConcat(s0, effects, first.effects);
    FirstAnchor(s, anchors, i);
    Regroup(effects, first.effects, ProcessDidAnchors(ApplyAll(s, first.effects), anchors[i + 1..]).effects);
  }

  lemma FirstAnchor(s: Stores, anchors: seq<DidAnchor>, i: nat)
    requires i < |anchors|
    ensures var first := Observer.ProcessAnchor(s, AnchorInfo(anchors[i].cid, [], []), anchors[i].answers);
            var rest := ProcessDidAnchors(ApplyAll(s, first.effects), anchors[i + 1..]);
            ProcessDidAnchors(s, anchors[i..]) ==
            (if first.error.Some? && IsTransient(first.error.value) then
               Outcome(first.effects, Some(Wrapped("process out-of-system anchor", first.error.value)))
             else Outcome(first.effects + rest.effects, rest.error))
  {
    assert anchors[i..][1..] == anchors[i + 1..];
  }

  class Service {
    var didAnchors: map<Bytes, HL>
    var links: seq<HL>
    var outbox: seq<Like>
    ghost var written: set<HL>
    ghost var foreign: set<HL>

    constructor ()
      ensures View() == Stores(map[], [], [], {}, {})
    {
      didAnchors, links, outbox := map[], [], [];
      written, foreign := {}, {};
    }

    ghost function View(): Stores
      reads this
    {
      Stores(didAnchors, links, outbox, written, foreign)
    }

    /** DidAnchors.PutBulk: the anchor becomes the latest one of every suffix. */
    method WriteBulk(suffixes: seq<Bytes>, anchor: HL)
      modifies this
      ensures View() == Apply(old(View()), PutBulk(suffixes, anchor))
    {
      var i := 0;
      while i < |suffixes|
        invariant 0 <= i <= |suffixes|
        invariant PutAll(didAnchors, suffixes[i..], anchor) == PutAll(old(didAnchors), suffixes, anchor)
        invariant links == old(links) && outbox == old(outbox)
        invariant written == old(written) && foreign == old(foreign)
      {
        didAnchors := didAnchors[suffixes[i] := anchor];
        i := i + 1;
      }
      written := written + {anchor};
    }

    /** AnchorLinkStore.GetLinks: the saved links with the given resource hash. */
    method GetLinks(hash: Bytes) returns (found: seq<HL>)
      ensures forall l :: l in found <==> l in links && Hashlink.GetResourceHashFromHashLink(l) == Ok(hash)
    {
      found := [];
      for i := 0 to |links|
        invariant forall l :: l in found <==>
                    l in links[..i] && Hashlink.GetResourceHashFromHashLink(l) == Ok(hash)
      {
        if Hashlink.GetResourceHashFromHashLink(links[i]) == Ok(hash) {
          found := found + [links[i]];
        }
      }
    }

    /** `isAnchorEventProcessed`: one of the links with the anchor's hash must be the hashlink itself. */
    method IsAnchorEventProcessed(hl: HL, getLinks: Option<Error>) returns (r: Result<bool, Error>)
      requires Hashlink.GetResourceHashFromHashLink(hl).Ok?
      ensures r == if getLinks.Some? then Err(getLinks.value) else Ok(hl in links)
    {
      var hash := Hashlink.GetResourceHashFromHashLink(hl).value;
      if getLinks.Some? {
        return Err(getLinks.value);
      }
      var found := GetLinks(hash);
      for i := 0 to |found|
        invariant hl !in found[..i]
      {
        if found[i] == hl {
          return Ok(true);
        }
      }
      return Ok(false);
    }

    /** `saveAnchorLinkAndPostLikeActivity` */
    method SaveAnchorLinkAndPostLike(anchor: AnchorInfo, a: Answers)
      modifies this
      ensures View() == ApplyAll(old(View()), SaveAndLike(anchor, a))
    {
      SavedAndLiked(View(), anchor, a);
      if !a.urlParses {
        return;
      }
      if a.putLinks.None? && anchor.hashlink !in links {
        links := links + [anchor.hashlink];
      }
      if anchor.attributedTo != [] && a.recipients.Ok? && a.post.None? {
        outbox := outbox + [Like(a.recipients.value, anchor.hashlink, anchor.localHashlink)];
      }
    }

    method ProcessAnchor(anchor: AnchorInfo, a: Answers) returns (err: Option<Error>)
      modifies this
      ensures var o := Observer.ProcessAnchor(old(View()), anchor, a);
              err == o.error && View() == ApplyAll(old(View()), o.effects)
    {
      if a.payload.Err? {
        return Some(Wrapped("process anchor", a.payload.error));
      }
      if a.protocolClient.Some? {
        return Some(Wrapped("process anchor", a.protocolClient.value));
      }
      if a.protocolVersion.Some? {
        return Some(Wrapped("process anchor", a.protocolVersion.value));
      }
      if Hashlink.GetResourceHashFromHashLink(anchor.hashlink).Err? {
        return Some(Wrapped("process anchor", Plain("must start with 'hl:' prefix")));
      }
      if a.credential.Some? {
        return Some(Wrapped("process anchor", a.credential.value));
      }
      if a.processed.Err? {
        return Some(Wrapped("process anchor", a.processed.error));
      }
      if a.processed.value == 0 {
        var processed := IsAnchorEventProcessed(anchor.hashlink, a.getLinks);
        if processed.Err? {
          return Some(Wrapped("process anchor", processed.error));
        }
        if processed.value {
          return None;
        }
      }
      if BulkWriteError(a.payload.value, a).Some? {
        return Some(Wrapped("process anchor", BulkWriteError(a.payload.value, a).value));
      }
      WriteBulk(Suffixes(a.payload.value), anchor.hashlink);
      SaveAnchorLinkAndPostLike(anchor, a);
      ghost var first := PutBulk(Suffixes(a.payload.value), anchor.hashlink);
      assert ([first] + SaveAndLike(anchor, a))[1..] == SaveAndLike(anchor, a);
      return None;
    }

    method HandleAnchor(anchor: AnchorInfo, read: Result<seq<Answers>, Error>) returns (err: Option<Error>)
      modifies this
      ensures var o := Observer.HandleAnchor(old(View()), anchor, read);
              err == o.error && View() == ApplyAll(old(View()), o.effects)
    {
      if read.Err? {
        return Some(read.error);
      }
      var anchorLinks := read.value;
      ghost var effects: seq<Effect> := [];
      var i := 0;
      while i < |anchorLinks|
        invariant 0 <= i <= |anchorLinks|
        invariant LinksLeft(old(View()), View(), anchor, anchorLinks, i, effects)
      {
        NextLink(old(View()), View(), anchor, anchorLinks, i, effects);
        effects := effects + Observer.ProcessAnchor(View(), anchor, anchorLinks[i]).effects;
        err := ProcessAnchor(anchor, anchorLinks[i]);
        if err.Some? {
          return;
        }
        i := i + 1;
      }
      assert effects + [] == effects;
      return None;
    }

    method ProcessDID(did: Bytes, anchors: Result<seq<DidAnchor>, Error>) returns (err: Option<Error>)
      modifies this
      ensures var o := Observer.ProcessDID(old(View()), did, anchors);
              err == o.error && View() == ApplyAll(old(View()), o.effects)
      ensures err.None? ==> COLON in did && anchors.Ok?
      ensures COLON in did && anchors.Err? ==> err == Some(anchors.error) && View() == old(View())
    {
      DidMessageNackedIff(View(), did, anchors);
      var parts := GetDidParts(did);
      if parts.Err? {
        return Some(parts.error);
      }
      if anchors.Err? {
        return Some(anchors.error);
      }
      var list := anchors.value;
      ghost var effects: seq<Effect> := [];
      var i := 0;
      while i < |list|
        invariant 0 <= i <= |list|
        invariant AnchorsLeft(old(View()), View(), list, i, effects)
      {
        NextAnchor(old(View()), View(), list, i, effects);
        var info := AnchorInfo(list[i].cid, [], []);
        effects := effects + Observer.ProcessAnchor(View(), info, list[i].answers).effects;
        var e := ProcessAnchor(info, list[i].answers);
        if e.Some? && IsTransient(e.value) {
          return Some(Wrapped("process out-of-system anchor", e.value));
        }
        i := i + 1;
      }
      assert effects + [] == effects;
      return None;
    }

    /** `handleAnchorCredentialMessage`; a message that cannot be unmarshalled is acknowledged. */
    method HandleAnchorMessage(payload: Option<AnchorInfo>, read: Result<seq<Answers>, Error>)
      returns (ack: Ack)
      modifies this
      ensures payload.None? ==> ack == Acked && View() == old(View())
      ensures payload.Some? ==>
                var o := Observer.HandleAnchor(old(View()), payload.value, read);
                ack == AckNack(o.error) && View() == ApplyAll(old(View()), o.effects)
    {
      if payload.None? {
        return Acked;
      }
      var err := HandleAnchor(payload.value, read);
      if err.None? {
        return Acked;
      } else if IsTransient(err.value) {
        return Nacked;
      } else {
        return Acked;
      }
    }

    /** `handleDIDMessage` */
    method HandleDIDMessage(payload: Option<Bytes>, anchors: Result<seq<DidAnchor>, Error>) returns (ack: Ack)
      modifies this
      ensures payload.None? ==> ack == Acked && View() == old(View())
      ensures payload.Some? ==>
                var o := Observer.ProcessDID(old(View()), payload.value, anchors);
                ack == AckNack(o.error) && View() == ApplyAll(old(View()), o.effects)
      ensures payload.Some? ==>
                (ack == Nacked <==>
                   && COLON in payload.value
                   && (anchors.Err? ==> HasTransient(Chain(anchors.error)))
                   && (anchors.Ok? ==> SomeFailsTransiently(old(View()), anchors.value)))
    {
      if payload.None? {
        return Acked;
      }
      DidMessageNackedIff(View(), payload.value, anchors);
      var err := ProcessDID(payload.value, anchors);
      return AckNack(err);
    }
  }
}
