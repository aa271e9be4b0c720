/** Data URIs (pkg/datauri/datauri.go): content is query-escaped, or compressed with gzip and base64-encoded
    (section 3 of RFC 2397; percent-encoding as in section 2.1 of RFC 3986). gzip is a parameter. */
module DataUri {
  import opened Common
  import opened ByteStrings

  datatype Gzip = Gzip(compress: Bytes -> Bytes, decompress: Bytes -> Result<Bytes, ()>) {
    /** What is assumed of gzip: decompression inverts compression. */
    ghost predicate Inverts() {
      forall content :: decompress(compress(content)) == Ok(content)
    }
  }

  datatype Error = NoMediaType | UnsupportedMediaType | BadUrl | BadScheme | NoContent | BadContent

  // ---------------------------------------------------------------------------------------------
  // URLs without authority, path, query and fragment

  /** A URL of the form scheme:body, which url.Parse calls opaque. */
  datatype Url = Url(scheme: Bytes, body: Bytes)

  const COMMA: Byte := ',' as int

  predicate IsLetter(b: Byte) {
    'a' as int <= b <= 'z' as int || 'A' as int <= b <= 'Z' as int
  }

  function Lower(b: Byte): Byte {
    if 'A' as int <= b <= 'Z' as int then b + 32 else b
  }

  predicate IsScheme(s: Bytes) {
    && s != [] && IsLetter(s[0])
    && forall b :: b in s ==> IsLetter(b) || IsDigit(b) || b == '+' as int || b == '-' as int || b == '.' as int
  }

  /** A byte that neither ends the body (a query or fragment mark) nor is a control character. */
  predicate IsBodyByte(b: Byte) {
    b >= 0x20 && b != 0x7F && b != '?' as int && b != '#' as int
  }

  /** url.Parse, for the URLs it parses as opaque and that have no query or fragment. */
  function ParseUrl(s: Bytes): Result<Url, Error> {
    var i := IndexOf(s, COLON);
    if i == |s| || !IsScheme(s[..i]) then Err(BadUrl)
    else
      var body := s[i + 1..];
      if (forall b :: b in body ==> IsBodyByte(b)) && (body == [] || body[0] != '/' as int) then
        Ok(Url(seq(i, k requires 0 <= k < i => Lower(s[k])), body))
      else Err(BadUrl)
  }

  function UrlString(u: Url): Bytes {
    u.scheme + [COLON] + u.body
  }

  /** A lower-case scheme and a plain body come back from their text. */
  lemma ParseUrlOf(scheme: Bytes, body: Bytes)
    requires IsScheme(scheme) && COLON !in scheme && forall b :: b in scheme ==> Lower(b) == b
    requires forall b :: b in body ==> IsBodyByte(b)
    requires body == [] || body[0] != '/' as int
    ensures ParseUrl(scheme + [COLON] + body) == Ok(Url(scheme, body))
  {
    var s := scheme + [COLON] + body;
    var i := IndexOf(s, COLON);
    assert s[|scheme|] == COLON;
    assert forall j :: 0 <= j < |scheme| ==> s[j] == scheme[j] && scheme[j] in scheme;
    assert forall n :: |scheme| < n <= |s| ==> s[..n][|scheme|] == COLON;
    assert i == |scheme|;
    assert s[..i] == scheme && s[i + 1..] == body;
    assert seq(i, k requires 0 <= k < i => Lower(s[k])) == scheme;
  }

  // ---------------------------------------------------------------------------------------------
  // Query escaping

  predicate IsUnreserved(b: Byte) {
    IsLetter(b) || IsDigit(b) || b == '-' as int || b == '_' as int || b == '.' as int || b == '~' as int
  }

  const PERCENT: Byte := '%' as int
  const PLUS: Byte := '+' as int
  const SPACE: Byte := ' ' as int

  function HexDigit(n: int): Byte
    requires 0 <= n < 16
  {
    if n < 10 then '0' as int + n else 'A' as int + (n - 10)
  }

  function HexValue(b: Byte): Option<nat> {
    if IsDigit(b) then Some(b - '0' as int)
    else if 'A' as int <= b <= 'F' as int then Some(b - 'A' as int + 10)
    else if 'a' as int <= b <= 'f' as int then Some(b - 'a' as int + 10)
    else None
  }

  /** url.QueryEscape */
  function QueryEscape(s: Bytes): Bytes {
    if s == [] then []
    else
      (if IsUnreserved(s[0]) then [s[0]]
       else if s[0] == SPACE then [PLUS]
       else [PERCENT, HexDigit(s[0] / 16), HexDigit(s[0] % 16)])
      + QueryEscape(s[1..])
  }

  /** url.QueryUnescape */
  function QueryUnescape(s: Bytes): Result<Bytes, Error>
    decreases |s|
  {
    if s == [] then Ok([])
    else if s[0] == PERCENT then
      if |s| < 3 || HexValue(s[1]).None? || HexValue(s[2]).None? then Err(BadContent)
      else
        var high, low := HexValue(s[1]).value, HexValue(s[2]).value;
        var rest := QueryUnescape(s[3..]);
        if rest.Err? || high >= 16 || low >= 16 then Err(BadContent) else Ok([high * 16 + low] + rest.value)
    else
      var rest := QueryUnescape(s[1..]);
      if rest.Err? then Err(BadContent) else Ok([if s[0] == PLUS then SPACE else s[0]] + rest.value)
  }

  /** A byte that may stand anywhere in the encoded part of a data URI. */
  predicate IsDataByte(b: Byte) {
    IsBodyByte(b) && b != COMMA
  }

  lemma {:induction false} EscapeRoundTrip(s: Bytes)
    ensures QueryUnescape(QueryEscape(s)) == Ok(s)
    ensures forall b :: b in QueryEscape(s) ==> IsDataByte(b)
    decreases |s|
  {
    if s != [] {
      EscapeRoundTrip(s[1..]);
      var e := QueryEscape(s);
      assert s == [s[0]] + s[1..];
      if IsUnreserved(s[0]) || s[0] == SPACE {
        assert e[1..] == QueryEscape(s[1..]);
      } else {
        assert e[3..] == QueryEscape(s[1..]);
      }
    }
  }

  // ---------------------------------------------------------------------------------------------
  // Data URIs

  /** "application/json" */
  const JSON: Bytes := [
    'a' as int, 'p' as int, 'p' as int, 'l' as int, 'i' as int, 'c' as int, 'a' as int, 't' as int,
    'i' as int, 'o' as int, 'n' as int, '/' as int, 'j' as int, 's' as int, 'o' as int, 'n' as int]

  /** "application/gzip;base64" */
  const GZIP_BASE64: Bytes := [
    'a' as int, 'p' as int, 'p' as int, 'l' as int, 'i' as int, 'c' as int, 'a' as int, 't' as int,
    'i' as int, 'o' as int, 'n' as int, '/' as int, 'g' as int, 'z' as int, 'i' as int, 'p' as int,
    ';' as int, 'b' as int, 'a' as int, 's' as int, 'e' as int, '6' as int, '4' as int]

  const DATA: Bytes := ['d' as int, 'a' as int, 't' as int, 'a' as int]

  function EncodeContent(gz: Gzip, content: Bytes, mediaType: Bytes): Result<Bytes, Error> {
    if mediaType == GZIP_BASE64 then Ok(EncodeStd(gz.compress(content)))
    else if mediaType == JSON then Ok(QueryEscape(content))
    else if mediaType == [] then Err(NoMediaType)
    else Err(UnsupportedMediaType)
  }

  function DecodeContent(gz: Gzip, encoded: Bytes, mediaType: Bytes): Result<Bytes, Error> {
    if mediaType == GZIP_BASE64 then
      var compressed := DecodeStd(encoded);
      if compressed.Err? then Err(BadContent)
      else
        var r := gz.decompress(compressed.value);
        if r.Err? then Err(BadContent) else Ok(r.value)
    else if mediaType == JSON then QueryUnescape(encoded)
    else if mediaType == [] then Err(NoMediaType)
    else Err(UnsupportedMediaType)
  }

  function New(gz: Gzip, content: Bytes, mediaType: Bytes): Result<Url, Error> {
    var encoded := EncodeContent(gz, content, mediaType);
    if encoded.Err? then Err(encoded.error)
    else ParseUrl(DATA + [COLON] + (mediaType + [COMMA] + encoded.value))
  }

  function Decode(gz: Gzip, u: Url): Result<Bytes, Error> {
    if u.scheme != DATA then Err(BadScheme)
    else
      var segments := Split(u.body, COMMA);
      if |segments| < 2 then Err(NoContent) else DecodeContent(gz, segments[1], segments[0])
  }

  predicate IsMediaType(mediaType: Bytes) {
    mediaType == JSON || mediaType == GZIP_BASE64
  }

  lemma MediaTypesArePlain(mediaType: Bytes)
    requires IsMediaType(mediaType)
    ensures mediaType != [] && mediaType[0] != '/' as int
    ensures COMMA !in mediaType
    ensures forall b :: b in mediaType ==> IsBodyByte(b)
    ensures JSON != GZIP_BASE64
  {
    assert |JSON| != |GZIP_BASE64|;
  }

  lemma StdSymbolsAreData(bs: Bytes)
    ensures forall b :: b in EncodeStd(bs) ==> IsDataByte(b)
  {
    EncodedSymbols(StdAlphabet, bs);
    assert forall b: Byte :: IsSymbol(StdAlphabet, b) ==> IsDataByte(b);
    assert IsDataByte(PAD);
  }

  /** The encoded content can stand in the URI and decodes to the content. */
  lemma ContentRoundTrip(gz: Gzip, content: Bytes, mediaType: Bytes)
    requires gz.Inverts() && IsMediaType(mediaType)
    ensures var encoded := EncodeContent(gz, content, mediaType);
            && encoded.Ok?
            && (forall b :: b in encoded.value ==> IsDataByte(b))
            && DecodeContent(gz, encoded.value, mediaType) == Ok(content)
  {
    MediaTypesArePlain(mediaType);
    if mediaType == JSON {
      EscapeRoundTrip(content);
    } else {
      StdRoundTrip(gz.compress(content));
      StdSymbolsAreData(gz.compress(content));
    }
  }

  /** Data URI round trip: for every content, a URI is made exactly for the two media types, and it decodes
      to the same content. */
  lemma DataUriRoundTrip(gz: Gzip, content: Bytes, mediaType: Bytes)
    requires gz.Inverts()
    ensures New(gz, content, mediaType).Ok? <==> IsMediaType(mediaType)
    ensures IsMediaType(mediaType) ==>
              var u := New(gz, content, mediaType).value;
              u.scheme == DATA && Decode(gz, u) == Ok(content)
  {
    if IsMediaType(mediaType) {
      MediaTypesArePlain(mediaType);
      ContentRoundTrip(gz, content, mediaType);
      var encoded := EncodeContent(gz, content, mediaType).value;
      NewIs(gz, content, mediaType);
      SplitFirst(mediaType, COMMA, encoded);
      SplitUnseparated(encoded, COMMA);
    }
  }

  // ---------------------------------------------------------------------------------------------
  // The format

  /** The media types are "application/json" and "application/gzip;base64", and the scheme is "data". */
  lemma MediaTypesAre()
    ensures |JSON| == 16 && forall i :: 0 <= i < 16 ==> JSON[i] == "application/json"[i] as int
    ensures |GZIP_BASE64| == 23 && forall i :: 0 <= i < 23 ==> GZIP_BASE64[i] == "application/gzip;base64"[i] as int
    ensures DATA == [0x64, 0x61, 0x74, 0x61]
  {
  }

  /** A data URI is "data:", the media type, a comma, and the escaped or the compressed and encoded content. */
  lemma DataUriIs(gz: Gzip, content: Bytes, mediaType: Bytes)
    requires gz.Inverts() && IsMediaType(mediaType)
    ensures var u := New(gz, content, mediaType);
            && u.Ok?
            && UrlString(u.value) == [0x64, 0x61, 0x74, 0x61, 0x3A] + mediaType + [0x2C]
                 + (if mediaType == JSON then QueryEscape(content) else EncodeStd(gz.compress(content)))
  {
    NewIs(gz, content, mediaType);
    UrlText(mediaType, EncodeContent(gz, content, mediaType).value);
    MediaTypesArePlain(mediaType);
  }

  lemma NewIs(gz: Gzip, content: Bytes, mediaType: Bytes)
    requires gz.Inverts() && IsMediaType(mediaType)
    ensures var encoded := EncodeContent(gz, content, mediaType);
            encoded.Ok? && New(gz, content, mediaType) == Ok(Url(DATA, mediaType + [COMMA] + encoded.value))
  {
    MediaTypesArePlain(mediaType);
    ContentRoundTrip(gz, content, mediaType);
    ParseUrlOf(DATA, mediaType + [COMMA] + EncodeContent(gz, content, mediaType).value);
  }

  lemma UrlText(mediaType: Bytes, encoded: Bytes)
    ensures UrlString(Url(DATA, mediaType + [COMMA] + encoded)) ==
            [0x64, 0x61, 0x74, 0x61, 0x3A] + mediaType + [0x2C] + encoded
  {
  }

  /** What is not a data URI of one of the two media types is not decoded. */
  lemma DecodeRejects(gz: Gzip, u: Url)
    ensures u.scheme != [0x64, 0x61, 0x74, 0x61] ==> Decode(gz, u) == Err(BadScheme)
    ensures COMMA !in u.body ==> Decode(gz, u).Err?
    ensures Decode(gz, u).Ok? ==>
              exists mediaType, rest :: u.body == mediaType + [COMMA] + rest && COMMA !in mediaType && IsMediaType(mediaType)
  {
    if COMMA !in u.body {
      SplitUnseparated(u.body, COMMA);
    }
    if Decode(gz, u).Ok? {
      var i := IndexOf(u.body, COMMA);
      var mediaType, rest := u.body[..i], u.body[i + 1..];
      assert u.body == mediaType + [COMMA] + rest;
      SplitFirst(mediaType, COMMA, rest);
      assert IsMediaType(mediaType);
    }
  }

  /** Unescaping takes hexadecimal digits in either case, and fails on a '%' without two of them. */
  lemma UnescapeExample(rest: Bytes)
    ensures QueryUnescape([0x25, 0x32, 0x66]) == Ok([0x2F]) && QueryUnescape([0x25, 0x32, 0x46]) == Ok([0x2F])
    ensures QueryUnescape([0x25]).Err? && QueryUnescape([0x25, 0x32]).Err? && QueryUnescape([0x25, 0x47, 0x31] + rest).Err?
  {
    var lower: Bytes, upper: Bytes := [0x25, 0x32, 0x66], [0x25, 0x32, 0x46];
    assert lower[3..] == [] && upper[3..] == [];
    assert QueryUnescape(lower[3..]) == Ok([]) && QueryUnescape(upper[3..]) == Ok([]);
    assert HexValue(0x66) == Some(15) && HexValue(0x46) == Some(15) && HexValue(0x32) == Some(2);
    assert [0x2F] + [] == [0x2F];
  }

  /** A space is written as '+', and a slash as "%2F". */
  lemma EscapeExample()
    ensures QueryEscape([0x61, 0x20, 0x2F]) == [0x61, 0x2B, 0x25, 0x32, 0x46]
  {
    var s: Bytes := [0x61, 0x20, 0x2F];
    assert s[1..] == [0x20, 0x2F] && s[1..][1..] == [0x2F] && s[1..][1..][1..] == [];
    assert QueryEscape(s[1..][1..]) == [0x25, 0x32, 0x46];
    assert QueryEscape(s[1..]) == [0x2B] + QueryEscape(s[1..][1..]);
  }
}
