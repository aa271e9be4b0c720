/** The CBOR subset (section 3 of RFC 8949) that hashlink metadata uses: integers, byte and text strings,
    arrays and maps of definite length. Encoding uses the shortest head; decoding accepts any head width. */
module Cbor {
  import opened Common
  import opened ByteStrings

  type Major = m: int | 0 <= m < 8

  datatype Item =
    | Unsigned(n: nat)
    | Negative(n: nat)            // -1 - n
    | ByteString(bytes: Bytes)
    | Text(text: Bytes)
    | Array(items: seq<Item>)
    | Map(keysAndValues: seq<Item>)

  // ---------------------------------------------------------------------------------------------
  // Heads

  function BigEndian(n: nat, width: nat): (bs: Bytes)
    ensures |bs| == width
  {
    if width == 0 then [] else BigEndian(n / 256, width - 1) + [n % 256]
  }

  function FromBigEndian(bs: Bytes): nat {
    if bs == [] then 0 else FromBigEndian(bs[..|bs| - 1]) * 256 + bs[|bs| - 1]
  }

  function Power256(k: nat): nat {
    if k == 0 then 1 else 256 * Power256(k - 1)
  }

  lemma {:induction false} BigEndianRoundTrip(n: nat, width: nat)
    requires n < Power256(width)
    ensures FromBigEndian(BigEndian(n, width)) == n
  {
    if width > 0 {
      BigEndianRoundTrip(n / 256, width - 1);
      var bs := BigEndian(n, width);
      assert bs[..|bs| - 1] == BigEndian(n / 256, width - 1);
    }
  }

  function Head(major: Major, n: Uint64): Bytes {
    if n < 24 then [major * 32 + n]
    else if n < 0x100 then [major * 32 + 24] + BigEndian(n, 1)
    else if n < 0x1_0000 then [major * 32 + 25] + BigEndian(n, 2)
    else if n < 0x1_0000_0000 then [major * 32 + 26] + BigEndian(n, 4)
    else [major * 32 + 27] + BigEndian(n, 8)
  }

  datatype HeadAndRest = HeadAndRest(major: Major, n: nat, rest: Bytes)

  /** The width of the argument that follows the initial byte, by its low five bits. */
  function ArgumentWidth(low: int): Option<nat> {
    if low < 24 then Some(0)
    else if low == 24 then Some(1)
    else if low == 25 then Some(2)
    else if low == 26 then Some(4)
    else if low == 27 then Some(8)
    else None
  }

  function DecodeHead(bs: Bytes): (r: Option<HeadAndRest>)
    ensures r.Some? ==> |r.value.rest| < |bs|
  {
    if bs == [] then None
    else
      var low := bs[0] % 32;
      var width := ArgumentWidth(low);
      if width.None? || |bs| < 1 + width.value then None
      else
        var n := if width.value == 0 then low else FromBigEndian(bs[1..1 + width.value]);
        Some(HeadAndRest(bs[0] / 32, n, bs[1 + width.value..]))
  }

  lemma WideHeadDecodes(first: Byte, argument: Bytes, rest: Bytes)
    requires argument != [] && ArgumentWidth(first % 32) == Some(|argument|)
    ensures DecodeHead([first] + argument + rest) == Some(HeadAndRest(first / 32, FromBigEndian(argument), rest))
  {
    var bs := [first] + argument + rest;
    assert bs[1..1 + |argument|] == argument;
    assert bs[1 + |argument|..] == rest;
  }

  lemma WideHead(major: Major, low: int, width: nat, n: Uint64, rest: Bytes)
    requires 24 <= low < 32 && ArgumentWidth(low) == Some(width) && n < Power256(width)
    ensures DecodeHead([major * 32 + low] + BigEndian(n, width) + rest) == Some(HeadAndRest(major, n, rest))
  {
    var first := major * 32 + low;
    BigEndianRoundTrip(n, width);
    assert first / 32 == major && first % 32 == low;
    WideHeadDecodes(first, BigEndian(n, width), rest);
  }

  lemma Powers()
    ensures Power256(1) == 0x100 && Power256(2) == 0x1_0000 && Power256(4) == 0x1_0000_0000
    ensures Power256(8) == 0x1_0000_0000_0000_0000
  {
    assert Power256(3) == 0x100_0000;
    assert Power256(4) == 0x1_0000_0000;
    assert Power256(5) == 256 * Power256(4);
    assert Power256(6) == 256 * Power256(5);
    assert Power256(7) == 256 * Power256(6);
  }

  lemma ShortHead(major: Major, n: Uint64, rest: Bytes)
    requires n < 24
    ensures DecodeHead([major * 32 + n] + rest) == Some(HeadAndRest(major, n, rest))
  {
    var first := major * 32 + n;
    assert first / 32 == major && first % 32 == n;
    assert ([first] + rest)[1..] == rest;
  }

  lemma HeadRoundTrip(major: Major, n: Uint64, rest: Bytes)
    ensures DecodeHead(Head(major, n) + rest) == Some(HeadAndRest(major, n, rest))
  {
    Powers();
    if n < 24 {
      ShortHead(major, n, rest);
    } else if n < 0x100 {
      WideHead(major, 24, 1, n, rest);
    } else if n < 0x1_0000 {
      WideHead(major, 25, 2, n, rest);
    } else if n < 0x1_0000_0000 {
      WideHead(major, 26, 4, n, rest);
    } else {
      WideHead(major, 27, 8, n, rest);
    }
  }

  // ---------------------------------------------------------------------------------------------
  // Items

  datatype ItemAndRest = ItemAndRest(item: Item, rest: Bytes)
  datatype ItemsAndRest = ItemsAndRest(items: seq<Item>, rest: Bytes)

  /** Decode one item. Text must be UTF-8, and an array or map may have at most `limit` elements or pairs
      (the decoder's configured maximum). Tags, floats and simple values are not part of the subset. */
  function DecodeItem(bs: Bytes, limit: nat): (r: Option<ItemAndRest>)
    ensures r.Some? ==> |r.value.rest| < |bs|
    decreases |bs|, 0
  {
    var head := DecodeHead(bs);
    if head.None? then None
    else
      var HeadAndRest(major, n, rest) := head.value;
      if major == 0 then Some(ItemAndRest(Unsigned(n), rest))
      else if major == 1 then Some(ItemAndRest(Negative(n), rest))
      else if major == 2 then
        if n > |rest| then None else Some(ItemAndRest(ByteString(rest[..n]), rest[n..]))
      else if major == 3 then
        if n > |rest| || !ValidUtf8(rest[..n]) then None
        else Some(ItemAndRest(Text(rest[..n]), rest[n..]))
      else if major == 4 then
        var items := if n > limit then None else DecodeItems(rest, n, limit);
        if items.None? then None else Some(ItemAndRest(Array(items.value.items), items.value.rest))
      else if major == 5 then
        var items := if n > limit then None else DecodeItems(rest, 2 * n, limit);
        if items.None? then None else Some(ItemAndRest(Map(items.value.items), items.value.rest))
      else None
  }

  /** Decode `n` items in a row. */
  function DecodeItems(bs: Bytes, n: nat, limit: nat): (r: Option<ItemsAndRest>)
    ensures r.Some? ==> |r.value.rest| <= |bs| && |r.value.items| == n
    decreases |bs|, 1
  {
    if n == 0 then Some(ItemsAndRest([], bs))
    else
      var first := DecodeItem(bs, limit);
      if first.None? then None
      else
        var others := DecodeItems(first.value.rest, n - 1, limit);
        if others.None? then None
        else Some(ItemsAndRest([first.value.item] + others.value.items, others.value.rest))
  }

  // ---------------------------------------------------------------------------------------------
  // A list of strings

  /** A Go string: its length fits an int. */
  type GoString = s: Bytes | |s| < 0x8000_0000_0000_0000

  type GoStrings = l: seq<GoString> | |l| < 0x8000_0000_0000_0000

  function EncodeText(s: GoString): Bytes {
    Head(3, |s|) + s
  }

  function EncodeTexts(list: seq<GoString>): Bytes {
    if list == [] then [] else EncodeText(list[0]) + EncodeTexts(list[1..])
  }

  predicate AllUtf8(list: seq<GoString>) {
    forall i :: 0 <= i < |list| ==> ValidUtf8(list[i])
  }

  function AsTexts(list: seq<Bytes>): seq<Item> {
    seq(|list|, i requires 0 <= i < |list| => Text(list[i]))
  }

  /** A text decodes exactly when it is UTF-8, and then to itself. */
  lemma TextRoundTrip(s: GoString, rest: Bytes, limit: nat)
    ensures DecodeItem(EncodeText(s) + rest, limit) ==
            (if ValidUtf8(s) then Some(ItemAndRest(Text(s), rest)) else None)
  {
    HeadRoundTrip(3, |s|, s + rest);
    assert EncodeText(s) + rest == Head(3, |s|) + (s + rest);
    assert (s + rest)[..|s|] == s && (s + rest)[|s|..] == rest;
  }

  lemma {:induction false} TextsRoundTrip(list: seq<GoString>, rest: Bytes, limit: nat)
    ensures DecodeItems(EncodeTexts(list) + rest, |list|, limit) ==
            (if AllUtf8(list) then Some(ItemsAndRest(AsTexts(list), rest)) else None)
    decreases |list|
  {
    if list == [] {
      assert EncodeTexts(list) + rest == rest && AsTexts(list) == [];
    } else {
      var tail := EncodeTexts(list[1..]) + rest;
      assert EncodeTexts(list) + rest == EncodeText(list[0]) + tail;
      TextRoundTrip(list[0], tail, limit);
      TextsRoundTrip(list[1..], rest, limit);
      FirstAndOtherTexts(list);
    }
  }

  lemma FirstAndOtherTexts(list: seq<GoString>)
    requires list != []
    ensures AllUtf8(list) <==> ValidUtf8(list[0]) && AllUtf8(list[1..])
    ensures AsTexts(list) == [Text(list[0])] + AsTexts(list[1..])
  {
    assert list == [list[0]] + list[1..];
  }

  /** What an item is, by its major type (section 3.1 of RFC 8949): an unsigned or a negative integer, a byte string,
      or a text, whose bytes follow; tags and simple values are not accepted. */
  lemma ItemsByMajor(n: Uint64, bs: Bytes, rest: Bytes, limit: nat)
    ensures DecodeItem(Head(0, n) + rest, limit) == Some(ItemAndRest(Unsigned(n), rest))
    ensures DecodeItem(Head(1, n) + rest, limit) == Some(ItemAndRest(Negative(n), rest))
    ensures n == |bs| ==> DecodeItem(Head(2, n) + (bs + rest), limit) == Some(ItemAndRest(ByteString(bs), rest))
    ensures n > |rest| ==> DecodeItem(Head(2, n) + rest, limit) == None && DecodeItem(Head(3, n) + rest, limit) == None
    ensures n > limit ==> DecodeItem(Head(4, n) + rest, limit) == None && DecodeItem(Head(5, n) + rest, limit) == None
    ensures DecodeItem(Head(6, n) + rest, limit) == None && DecodeItem(Head(7, n) + rest, limit) == None
  {
    HeadRoundTrip(0, n, rest);
    HeadRoundTrip(1, n, rest);
    HeadRoundTrip(2, n, bs + rest);
    HeadRoundTrip(2, n, rest);
    HeadRoundTrip(3, n, rest);
    HeadRoundTrip(4, n, rest);
    HeadRoundTrip(5, n, rest);
    HeadRoundTrip(6, n, rest);
    HeadRoundTrip(7, n, rest);
    assert (bs + rest)[..|bs|] == bs && (bs + rest)[|bs|..] == rest;
  }
}
