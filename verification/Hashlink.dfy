/** Hashlinks (pkg/hashlink/hashlink.go): `hl:<resource hash>[:<metadata>]`, where the resource hash is a
    base64url-encoded SHA-256 multihash and the metadata a base64url-encoded CBOR map holding links.

    SHA-256 is a parameter, and so is the element limit of the CBOR decoder. */
module Hashlink {
  import opened Common
  import opened ByteStrings
  import opened Cbor

  /** A SHA-256 digest. */
  type Digest = d: Bytes | |d| == 32 witness seq(32, _ => 0)

  type Sha256 = Bytes -> Digest

  const LETTER_U: Byte := 'u' as int
  const HL_PREFIX: Bytes := ['h' as int, 'l' as int, ':' as int]
  const SHA2_256: nat := 18
  const LINKS_KEY: nat := 0x0f

  datatype Error =
    | NoPrefix | TooManyParts | BadEncoding | BadMultihash | WrongCode | BadMetadata | NoLinks | NotStrings

  // ---------------------------------------------------------------------------------------------
  // The default encoder and decoder

  function Encode(data: Bytes): Bytes {
    [LETTER_U] + EncodeRaw(UrlAlphabet, data)
  }

  function Decode(enc: Bytes): Result<Bytes, Error> {
    if enc == [] then Ok([])
    else if enc[0] != LETTER_U then Err(BadEncoding)
    else
      var r := DecodeUrl(enc[1..]);
      if r.Err? then Err(BadEncoding) else Ok(r.value)
  }

  /** The encoding is inverted by the decoder and never holds the separator. */
  lemma EncodeRoundTrip(data: Bytes)
    ensures Decode(Encode(data)) == Ok(data)
    ensures COLON !in Encode(data)
  {
    UrlRoundTrip(data);
    EncodedSymbols(UrlAlphabet, data);
    assert Encode(data)[1..] == EncodeRaw(UrlAlphabet, data);
    assert !IsSymbol(UrlAlphabet, COLON);
  }

  // ---------------------------------------------------------------------------------------------
  // Multihashes

  /** An unsigned varint of at most nine bytes, in its shortest form. */
  function ReadUvarint(bs: Bytes, taken: nat): Option<(nat, Bytes)>
    decreases |bs|
  {
    if bs == [] || taken > 8 then None
    else if bs[0] < 128 then
      if bs[0] == 0 && taken > 0 then None else Some((bs[0], bs[1..]))
    else
      var r := ReadUvarint(bs[1..], taken + 1);
      if r.None? then None else Some((bs[0] - 128 + 128 * r.value.0, r.value.1))
  }

  /** hashing.ComputeMultihash for SHA-256: code, length, digest. */
  function Multihash(sha: Sha256, content: Bytes): Bytes {
    [SHA2_256, 32] + sha(content)
  }

  /** multihash.Decode: the code, if the length field matches the digest. */
  function MultihashCode(bs: Bytes): Option<nat> {
    var code := ReadUvarint(bs, 0);
    if code.None? then None
    else
      var length := ReadUvarint(code.value.1, 0);
      if length.None? || length.value.0 != |length.value.1| then None else Some(code.value.0)
  }

  lemma MultihashHasCode(sha: Sha256, content: Bytes)
    ensures MultihashCode(Multihash(sha, content)) == Some(SHA2_256)
  {
    var digest := sha(content);
    assert Multihash(sha, content)[1..] == [32] + digest;
    assert ([32] + digest)[1..] == digest;
  }

  /** `isValidMultihash`: the error, if any. */
  function CheckMultihash(encoded: Bytes): Option<Error> {
    var bytes := Decode(encoded);
    if bytes.Err? then Some(bytes.error)
    else
      var code := MultihashCode(bytes.value);
      if code.None? then Some(BadMultihash)
      else if code.value != SHA2_256 then Some(WrongCode)
      else None
  }

  function CreateResourceHash(sha: Sha256, content: Bytes): Bytes {
    Encode(Multihash(sha, content))
  }

  lemma ResourceHashIsValid(sha: Sha256, content: Bytes)
    ensures CheckMultihash(CreateResourceHash(sha, content)) == None
    ensures COLON !in CreateResourceHash(sha, content)
  {
    EncodeRoundTrip(Multihash(sha, content));
    MultihashHasCode(sha, content);
  }

  // ---------------------------------------------------------------------------------------------
  // Metadata

  /** The CBOR map {15: links}. */
  function EncodeLinks(links: GoStrings): Bytes {
    Head(5, 1) + Head(0, LINKS_KEY) + Head(4, |links|) + EncodeTexts(links)
  }

  /** cbor.Unmarshal into map[int]interface{}: a single map item with integer keys. */
  function DecodeMetadata(bs: Bytes, limit: nat): Option<seq<Item>> {
    var r := DecodeItem(bs, limit);
    if r.None? || !r.value.item.Map? || r.value.rest != [] then None
    else
      var kvs := r.value.item.keysAndValues;
      if forall i :: 0 <= i < |kvs| && i % 2 == 0 ==> kvs[i].Unsigned? || kvs[i].Negative? then Some(kvs)
      else None
  }

  /** The value of the links key; of several, the last one. */
  function LinksEntry(kvs: seq<Item>): Option<Item> {
    if |kvs| < 2 then None
    else
      var later := LinksEntry(kvs[2..]);
      if later.Some? then later
      else if kvs[0] == Unsigned(LINKS_KEY) then Some(kvs[1])
      else None
  }

  /** The strings of an array of strings. */
  function ToStringArray(item: Item): Result<seq<Bytes>, Error> {
    if item.Array? && forall i :: 0 <= i < |item.items| ==> item.items[i].Text? then
      Ok(seq(|item.items|, i requires 0 <= i < |item.items| => item.items[i].text))
    else Err(NotStrings)
  }

  /** `toStringArray`, which stops at the first entry that is not a string. */
  method CollectStrings(item: Item) returns (r: Result<seq<Bytes>, Error>)
    ensures r == ToStringArray(item)
  {
    if !item.Array? {
      return Err(NotStrings);
    }
    var result: seq<Bytes> := [];
    for k := 0 to |item.items|
      invariant |result| == k
      invariant forall i :: 0 <= i < k ==> item.items[i].Text? && result[i] == item.items[i].text
    {
      if !item.items[k].Text? {
        return Err(NotStrings);
      }
      result := result + [item.items[k].text];
    }
    assert result == ToStringArray(item).value;
    return Ok(result);
  }

  function GetLinksFromMetadata(enc: Bytes, limit: nat): Result<seq<Bytes>, Error> {
    var bytes := Decode(enc);
    if bytes.Err? then Err(bytes.error)
    else
      var kvs := DecodeMetadata(bytes.value, limit);
      if kvs.None? then Err(BadMetadata)
      else
        var entry := LinksEntry(kvs.value);
        if entry.None? then Err(NoLinks) else ToStringArray(entry.value)
  }

  /** The links array decodes exactly when it is within the limit and all its strings are UTF-8. */
  lemma LinksArrayRoundTrip(links: GoStrings, limit: nat)
    ensures DecodeItem(Head(4, |links|) + EncodeTexts(links), limit) ==
            (if |links| <= limit && AllUtf8(links) then Some(ItemAndRest(Array(AsTexts(links)), [])) else None)
  {
    HeadRoundTrip(4, |links|, EncodeTexts(links));
    TextsRoundTrip(links, [], limit);
    assert EncodeTexts(links) + [] == EncodeTexts(links);
  }

  lemma KeyDecodes(value: Bytes, limit: nat)
    ensures DecodeItem(Head(0, LINKS_KEY) + value, limit) == Some(ItemAndRest(Unsigned(LINKS_KEY), value))
  {
    HeadRoundTrip(0, LINKS_KEY, value);
  }

  /** A map of one pair. */
  lemma MapDecodes(pair: Bytes, limit: nat)
    requires 1 <= limit
    ensures DecodeItem(Head(5, 1) + pair, limit) ==
            match DecodeItems(pair, 2, limit)
            case None => None
            case Some(r) => Some(ItemAndRest(Map(r.items), r.rest))
  {
    HeadRoundTrip(5, 1, pair);
  }

  lemma MetadataRoundTrip(links: GoStrings, limit: nat)
    requires 1 <= limit
    ensures DecodeMetadata(EncodeLinks(links), limit) ==
            (if |links| <= limit && AllUtf8(links) then Some([Unsigned(LINKS_KEY), Array(AsTexts(links))])
             else None)
  {
    var value := Head(4, |links|) + EncodeTexts(links);
    var pair := Head(0, LINKS_KEY) + value;
    assert EncodeLinks(links) == Head(5, 1) + pair;
    KeyDecodes(value, limit);
    LinksArrayRoundTrip(links, limit);
    PairDecodes(pair, value, limit);
    MapDecodes(pair, limit);
    OnePair(EncodeLinks(links), Unsigned(LINKS_KEY), DecodeItem(value, limit), limit);
  }

  /** Metadata that is a map of one pair with an unsigned key. */
  lemma OnePair(bs: Bytes, key: Item, value: Option<ItemAndRest>, limit: nat)
    requires key.Unsigned? && (value.Some? ==> value.value.rest == [])
    requires DecodeItem(bs, limit) ==
             if value.None? then None else Some(ItemAndRest(Map([key, value.value.item]), []))
    ensures DecodeMetadata(bs, limit) == if value.None? then None else Some([key, value.value.item])
  {
  }

  /** A key followed by a value, as two items. */
  lemma PairDecodes(pair: Bytes, value: Bytes, limit: nat)
    requires DecodeItem(pair, limit) == Some(ItemAndRest(Unsigned(LINKS_KEY), value))
    ensures DecodeItems(pair, 2, limit) ==
            (if DecodeItem(value, limit).None? then None
             else Some(ItemsAndRest([Unsigned(LINKS_KEY), DecodeItem(value, limit).value.item],
                                    DecodeItem(value, limit).value.rest)))
  {
    var v := DecodeItem(value, limit);
    if v.Some? {
      assert DecodeItems(v.value.rest, 0, limit) == Some(ItemsAndRest([], v.value.rest));
      assert [v.value.item] + [] == [v.value.item];
      assert DecodeItems(value, 1, limit) == Some(ItemsAndRest([v.value.item], v.value.rest));
      assert [Unsigned(LINKS_KEY)] + [v.value.item] == [Unsigned(LINKS_KEY), v.value.item];
    } else {
      assert DecodeItems(value, 1, limit) == None;
    }
  }

  /** Links come back from the metadata made of them exactly when they are UTF-8 and not too many. */
  lemma LinksRoundTrip(links: GoStrings, limit: nat)
    requires 1 <= limit
    ensures GetLinksFromMetadata(Encode(EncodeLinks(links)), limit) ==
            (if |links| <= limit && AllUtf8(links) then Ok(links) else Err(BadMetadata))
  {
    EncodeRoundTrip(EncodeLinks(links));
    MetadataRoundTrip(links, limit);
    var kvs := [Unsigned(LINKS_KEY), Array(AsTexts(links))];
    assert LinksEntry(kvs[2..]) == None;
    var texts := AsTexts(links);
    assert seq(|texts|, i requires 0 <= i < |texts| => texts[i].text) == links;
  }

  // ---------------------------------------------------------------------------------------------
  // Hashlinks

  /** `Info`: no metadata and metadata with no links both leave the links empty. */
  datatype Info = Info(resourceHash: Bytes, links: seq<Bytes>)

  function CreateHashLink(sha: Sha256, content: Bytes, links: GoStrings): Bytes {
    var hashLink := HL_PREFIX + CreateResourceHash(sha, content);
    if links == [] then hashLink else hashLink + [COLON] + Encode(EncodeLinks(links))
  }

  predicate HasPrefix(s: Bytes) {
    HL_PREFIX <= s
  }

  function ParseHashLink(hashLink: Bytes, limit: nat): Result<Info, Error> {
    if !HasPrefix(hashLink) then Err(NoPrefix)
    else
      PrefixMakesTwoParts(hashLink);
      var parts := Split(hashLink, COLON);
      if |parts| > 3 then Err(TooManyParts)
      else
        var bad := CheckMultihash(parts[1]);
        if bad.Some? then Err(bad.value)
        else if |parts| == 2 then Ok(Info(parts[1], []))
        else
          var links := GetLinksFromMetadata(parts[2], limit);
          if links.Err? then Err(links.error) else Ok(Info(parts[1], links.value))
  }

  function GetResourceHashFromHashLink(hashLink: Bytes): Result<Bytes, Error> {
    if !HasPrefix(hashLink) then Err(NoPrefix)
    else
      PrefixMakesTwoParts(hashLink);
      Ok(Split(hashLink, COLON)[1])
  }

  lemma PrefixMakesTwoParts(s: Bytes)
    requires HasPrefix(s)
    ensures |Split(s, COLON)| >= 2
    ensures Split(s, COLON) == [HL_PREFIX[..2]] + Split(s[3..], COLON)
  {
    SplitFirst(HL_PREFIX[..2], COLON, s[3..]);
    assert s == HL_PREFIX[..2] + [COLON] + s[3..];
  }

  lemma PartsOfHashLink(hash: Bytes, metadata: Bytes)
    requires COLON !in hash && COLON !in metadata
    ensures Split(HL_PREFIX + hash, COLON) == [HL_PREFIX[..2], hash]
    ensures Split(HL_PREFIX + hash + [COLON] + metadata, COLON) == [HL_PREFIX[..2], hash, metadata]
  {
    BarePart(hash);
    TwoMoreParts(hash, metadata);
  }

  lemma BarePart(hash: Bytes)
    requires COLON !in hash
    ensures Split(HL_PREFIX + hash, COLON) == [HL_PREFIX[..2], hash]
  {
    PrefixMakesTwoParts(HL_PREFIX + hash);
    assert (HL_PREFIX + hash)[3..] == hash;
    SplitUnseparated(hash, COLON);
  }

  lemma TwoMoreParts(hash: Bytes, metadata: Bytes)
    requires COLON !in hash && COLON !in metadata
    ensures Split(HL_PREFIX + hash + [COLON] + metadata, COLON) == [HL_PREFIX[..2], hash, metadata]
  {
    var tail := hash + [COLON] + metadata;
    assert HL_PREFIX + hash + [COLON] + metadata == HL_PREFIX + tail;
    PrefixMakesTwoParts(HL_PREFIX + tail);
    assert (HL_PREFIX + tail)[3..] == tail;
    SplitFirst(hash, COLON, metadata);
    SplitUnseparated(metadata, COLON);
  }

  /** Hashlink round trip: for every content and every list of links, parsing the hashlink created from
      them succeeds exactly when the links are UTF-8 and within the decoder's limit, and then returns the
      resource hash of the content and the same links. */
  lemma HashLinkRoundTrip(sha: Sha256, content: Bytes, links: GoStrings, limit: nat)
    requires 1 <= limit
    ensures ParseHashLink(CreateHashLink(sha, content, links), limit) ==
            (if links == [] || (|links| <= limit && AllUtf8(links))
             then Ok(Info(CreateResourceHash(sha, content), links))
             else Err(BadMetadata))
    ensures GetResourceHashFromHashLink(CreateHashLink(sha, content, links)) ==
            Ok(CreateResourceHash(sha, content))
  {
    var hash, metadata := CreateResourceHash(sha, content), Encode(EncodeLinks(links));
    ResourceHashIsValid(sha, content);
    EncodeRoundTrip(EncodeLinks(links));
    PartsOfHashLink(hash, metadata);
    LinksRoundTrip(links, limit);
  }

  /** The two ways of getting at the resource hash agree on every string that parses, and a hashlink names
      the same resource whatever its metadata. */
  lemma ResourceHashAgrees(hashLink: Bytes, limit: nat)
    requires ParseHashLink(hashLink, limit).Ok?
    ensures GetResourceHashFromHashLink(hashLink) == Ok(ParseHashLink(hashLink, limit).value.resourceHash)
    ensures COLON !in ParseHashLink(hashLink, limit).value.resourceHash
  {
    JoinSplit(hashLink, COLON);
    PrefixMakesTwoParts(hashLink);
    assert COLON !in Split(hashLink, COLON)[1];
  }

  // ---------------------------------------------------------------------------------------------
  // The formats, byte by byte

  /** The multihash of a content is its code, 0x12 for SHA-256, its length, and the digest; the resource hash is a
      'u' and its encoding; and a hashlink is "hl:", the resource hash, and ':' and the metadata if there is any. */
  lemma HashLinkBytes(sha: Sha256, content: Bytes, links: GoStrings)
    ensures var hash := CreateResourceHash(sha, content);
            && hash == [0x75] + EncodeRaw(UrlAlphabet, [0x12, 0x20] + sha(content))
            && CreateHashLink(sha, content, links) ==
               [0x68, 0x6C, 0x3A] + hash + (if links == [] then [] else [0x3A, 0x75] + EncodeRaw(UrlAlphabet, EncodeLinks(links)))
  {
    var hash := CreateResourceHash(sha, content);
    var raw := EncodeRaw(UrlAlphabet, EncodeLinks(links));
    assert [0x3A] + ([0x75] + raw) == [0x3A, 0x75] + raw;
    assert [0x68, 0x6C, 0x3A] + hash + [] == [0x68, 0x6C, 0x3A] + hash;
  }

  /** The metadata of one link "a": a map of one pair, the key 15, an array of one text of one byte. */
  lemma MetadataExample()
    ensures EncodeLinks([[0x61]]) == [0xA1, 0x0F, 0x81, 0x61, 0x61]
  {
    var links: GoStrings := [[0x61]];
    assert links[1..] == [];
    assert EncodeTexts(links) == EncodeText([0x61]) + EncodeTexts([]);
  }

  lemma {:induction false} LaterDigitsArePositive(bs: Bytes, taken: nat)
    requires taken > 0 && ReadUvarint(bs, taken).Some?
    ensures ReadUvarint(bs, taken).value.0 >= 1
    decreases |bs|
  {
    if bs[0] >= 128 {
      LaterDigitsArePositive(bs[1..], taken + 1);
    }
  }

  /** A small number is read from one byte and from nothing else. */
  lemma SmallUvarint(bs: Bytes, n: nat)
    requires n < 128
    ensures ReadUvarint(bs, 0).Some? && ReadUvarint(bs, 0).value.0 == n <==> bs != [] && bs[0] == n
    ensures bs != [] && bs[0] == n ==> ReadUvarint(bs, 0) == Some((n, bs[1..]))
  {
    if bs != [] && bs[0] >= 128 && ReadUvarint(bs, 0).Some? {
      LaterDigitsArePositive(bs[1..], 1);
    }
  }

  /** A resource hash is accepted exactly if it decodes to the code 0x12, a length, and that many bytes. */
  lemma AcceptedResourceHash(encoded: Bytes)
    ensures CheckMultihash(encoded) == None <==>
              && Decode(encoded).Ok?
              && var bs := Decode(encoded).value;
              && bs != [] && bs[0] == 0x12
              && var length := ReadUvarint(bs[1..], 0);
              length.Some? && length.value.0 == |length.value.1|
  {
    if Decode(encoded).Ok? {
      SmallUvarint(Decode(encoded).value, 0x12);
    }
  }

  /** A string is accepted as a hashlink exactly if it is "hl:" and an accepted resource hash without ':', and
      nothing more or ':' and metadata without ':' from which links can be read. */
  lemma AcceptedHashLink(hashLink: Bytes, info: Info, limit: nat)
    ensures ParseHashLink(hashLink, limit) == Ok(info) <==>
              && CheckMultihash(info.resourceHash) == None && COLON !in info.resourceHash
              && ((hashLink == HL_PREFIX + info.resourceHash && info.links == []) ||
                  exists metadata :: COLON !in metadata && GetLinksFromMetadata(metadata, limit) == Ok(info.links) &&
                    hashLink == HL_PREFIX + info.resourceHash + [COLON] + metadata)
  {
    if ParseHashLink(hashLink, limit) == Ok(info) {
      AcceptedParts(hashLink, info, limit);
    } else if CheckMultihash(info.resourceHash) == None && COLON !in info.resourceHash {
      PartsOfHashLink(info.resourceHash, []);
      forall metadata | COLON !in metadata && GetLinksFromMetadata(metadata, limit) == Ok(info.links)
        ensures hashLink != HL_PREFIX + info.resourceHash + [COLON] + metadata
      {
        PartsOfHashLink(info.resourceHash, metadata);
      }
    }
  }

  lemma AcceptedParts(hashLink: Bytes, info: Info, limit: nat)
    requires ParseHashLink(hashLink, limit) == Ok(info)
    ensures CheckMultihash(info.resourceHash) == None && COLON !in info.resourceHash
    ensures (hashLink == HL_PREFIX + info.resourceHash && info.links == []) ||
            exists metadata :: COLON !in metadata && GetLinksFromMetadata(metadata, limit) == Ok(info.links) &&
              hashLink == HL_PREFIX + info.resourceHash + [COLON] + metadata
  {
    JoinSplit(hashLink, COLON);
    PrefixMakesTwoParts(hashLink);
    var parts := Split(hashLink, COLON);
    assert COLON !in parts[1];
    if |parts| == 2 {
      assert parts == [parts[0], parts[1]];
      JoinTwo(parts[0], parts[1], COLON);
      assert HL_PREFIX == parts[0] + [COLON];
    } else {
      assert COLON !in parts[2];
      assert parts == [parts[0], parts[1], parts[2]];
      ThreeParts(hashLink, parts[0], parts[1], parts[2]);
    }
  }

  lemma ThreeParts(hashLink: Bytes, a: Bytes, b: Bytes, c: Bytes)
    requires hashLink == Join([a, b, c], COLON) && a == HL_PREFIX[..2]
    ensures hashLink == HL_PREFIX + b + [COLON] + c
  {
    JoinThree(a, b, c, COLON);
    assert HL_PREFIX == a + [COLON];
  }

  function KeyAt(kvs: seq<Item>, j: nat): Item
    requires 2 * j + 1 < |kvs|
  {
    kvs[2 * j]
  }

  function ValueAt(kvs: seq<Item>, j: nat): Item
    requires 2 * j + 1 < |kvs|
  {
    kvs[2 * j + 1]
  }

  /** Pair j is the last one with the links key. */
  ghost predicate IsLinksPair(kvs: seq<Item>, j: nat) {
    && 2 * j + 1 < |kvs| && KeyAt(kvs, j) == Unsigned(15)
    && forall i: nat :: j < i && 2 * i + 1 < |kvs| ==> KeyAt(kvs, i) != Unsigned(15)
  }

  lemma PairsOfRest(kvs: seq<Item>, j: nat)
    requires 2 * j + 3 < |kvs|
    ensures KeyAt(kvs, j + 1) == KeyAt(kvs[2..], j) && ValueAt(kvs, j + 1) == ValueAt(kvs[2..], j)
  {
  }

  lemma LinksPairOfRest(kvs: seq<Item>, j: nat)
    requires |kvs| >= 2 && IsLinksPair(kvs[2..], j)
    ensures IsLinksPair(kvs, j + 1) && ValueAt(kvs, j + 1) == ValueAt(kvs[2..], j)
  {
    PairsOfRest(kvs, j);
    forall i: nat | j + 1 < i && 2 * i + 1 < |kvs| ensures KeyAt(kvs, i) != Unsigned(15) {
      PairsOfRest(kvs, i - 1);
    }
  }

  /** The links are what stands with the last key 15, if there is one. */
  lemma {:induction false} LinksEntryExactly(kvs: seq<Item>)
    ensures LinksEntry(kvs).Some? ==> exists j: nat :: IsLinksPair(kvs, j) && LinksEntry(kvs) == Some(ValueAt(kvs, j))
    ensures LinksEntry(kvs).None? ==> forall j: nat :: 2 * j + 1 < |kvs| ==> KeyAt(kvs, j) != Unsigned(15)
    decreases |kvs|
  {
    if |kvs| >= 2 {
      var rest := kvs[2..];
      LinksEntryExactly(rest);
      if LinksEntry(rest).Some? {
        var j: nat :| IsLinksPair(rest, j) && LinksEntry(rest) == Some(ValueAt(rest, j));
        LinksPairOfRest(kvs, j);
      } else {
        forall j: nat | 0 < j && 2 * j + 1 < |kvs| ensures KeyAt(kvs, j) != Unsigned(15) {
          PairsOfRest(kvs, j - 1);
        }
        assert KeyAt(kvs, 0) == kvs[0] && ValueAt(kvs, 0) == kvs[1];
        if kvs[0] == Unsigned(15) {
          assert IsLinksPair(kvs, 0);
        }
      }
    }
  }

  /** Links are read from metadata only if it is the encoding of one CBOR map with integer keys, and an array of
      texts stands with its last key 15; the links are those texts. */
  lemma ReadLinks(enc: Bytes, limit: nat, links: seq<Bytes>)
    requires GetLinksFromMetadata(enc, limit) == Ok(links)
    ensures Decode(enc).Ok? && DecodeMetadata(Decode(enc).value, limit).Some?
    ensures var kvs := DecodeMetadata(Decode(enc).value, limit).value;
            && DecodeItem(Decode(enc).value, limit) == Some(ItemAndRest(Map(kvs), []))
            && exists j: nat :: IsLinksPair(kvs, j) && ValueAt(kvs, j) == Array(AsTexts(links))
  {
    var kvs := DecodeMetadata(Decode(enc).value, limit).value;
    LinksEntryExactly(kvs);
    var j: nat :| IsLinksPair(kvs, j) && LinksEntry(kvs) == Some(ValueAt(kvs, j));
    assert ValueAt(kvs, j).items == AsTexts(links);
  }
}
