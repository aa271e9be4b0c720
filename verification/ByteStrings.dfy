/** Go strings and byte slices as sequences of bytes, with the library operations the codecs rest on:
    strings.Split, base64 (sections 4 and 5 of RFC 4648) and UTF-8 validity (section 4 of RFC 3629). */
module ByteStrings {
  import opened Common

  type Byte = b: int | 0 <= b < 256

  type Bytes = seq<Byte>

  type Uint64 = n: int | 0 <= n < 0x1_0000_0000_0000_0000

  const COLON: Byte := ':' as int

  predicate IsDigit(b: Byte) {
    '0' as int <= b <= '9' as int
  }

  // ---------------------------------------------------------------------------------------------
  // strings.Split by a one-byte separator

  function IndexOf(s: Bytes, sep: Byte): (i: nat)
    ensures i <= |s| && sep !in s[..i]
    ensures i < |s| ==> s[i] == sep
  {
    if s == [] || s[0] == sep then 0
    else
      var i := 1 + IndexOf(s[1..], sep);
      assert s[..i] == [s[0]] + s[1..][..i - 1];
      i
  }

  function Split(s: Bytes, sep: Byte): (parts: seq<Bytes>)
    ensures parts != []
    decreases |s|
  {
    var i := IndexOf(s, sep);
    if i == |s| then [s] else [s[..i]] + Split(s[i + 1..], sep)
  }

  function Join(parts: seq<Bytes>, sep: Byte): Bytes
    requires parts != []
  {
    if |parts| == 1 then parts[0] else parts[0] + [sep] + Join(parts[1..], sep)
  }

  lemma SplitUnseparated(s: Bytes, sep: Byte)
    requires sep !in s
    ensures Split(s, sep) == [s]
  {
    assert forall j :: 0 <= j < |s| ==> s[j] in s;
  }

  lemma SplitSeparated(s: Bytes, sep: Byte)
    requires sep in s
    ensures |Split(s, sep)| >= 2
  {
    assert s[..|s|] == s;
  }

  lemma SplitFirst(a: Bytes, sep: Byte, rest: Bytes)
    requires sep !in a
    ensures Split(a + [sep] + rest, sep) == [a] + Split(rest, sep)
  {
    var s := a + [sep] + rest;
    var i := IndexOf(s, sep);
    assert s[|a|] == sep;
    assert forall j :: 0 <= j < |a| ==> s[j] == a[j] && a[j] in a;
    assert forall n :: |a| < n <= |s| ==> s[..n][|a|] == sep;
    assert s[..i] == a && s[i + 1..] == rest;
  }

  /** Splitting loses nothing, and no part holds the separator. */
  lemma {:induction false} JoinSplit(s: Bytes, sep: Byte)
    ensures Join(Split(s, sep), sep) == s
    ensures forall i :: 0 <= i < |Split(s, sep)| ==> sep !in Split(s, sep)[i]
    decreases |s|
  {
    var i := IndexOf(s, sep);
    if i == |s| {
      assert s[..i] == s;
    } else {
      JoinSplit(s[i + 1..], sep);
      JoinCons(s[..i], Split(s[i + 1..], sep), sep);
      assert s == s[..i] + [sep] + s[i + 1..];
    }
  }

  lemma JoinTwo(a: Bytes, b: Bytes, sep: Byte)
    ensures Join([a, b], sep) == a + [sep] + b
  {
    assert [a, b] == [a] + [b];
    JoinCons(a, [b], sep);
  }

  lemma JoinThree(a: Bytes, b: Bytes, c: Bytes, sep: Byte)
    ensures Join([a, b, c], sep) == a + [sep] + (b + [sep] + c)
  {
    assert [a, b, c] == [a] + [b, c];
    JoinCons(a, [b, c], sep);
    JoinTwo(b, c, sep);
  }

  lemma JoinCons(first: Bytes, rest: seq<Bytes>, sep: Byte)
    requires rest != []
    ensures Join([first] + rest, sep) == first + [sep] + Join(rest, sep)
  {
    assert ([first] + rest)[1..] == rest;
  }

  // ---------------------------------------------------------------------------------------------
  // Base64

  /** The standard alphabet with padding, or the URL alphabet without. */
  datatype Alphabet = StdAlphabet | UrlAlphabet

  type Sextet = n: int | 0 <= n < 64

  function Symbol(alphabet: Alphabet, n: Sextet): Byte {
    if n < 26 then 'A' as int + n
    else if n < 52 then 'a' as int + (n - 26)
    else if n < 62 then '0' as int + (n - 52)
    else if n == 62 then (if alphabet.UrlAlphabet? then '-' as int else '+' as int)
    else (if alphabet.UrlAlphabet? then '_' as int else '/' as int)
  }

  function SextetOf(alphabet: Alphabet, b: Byte): Option<Sextet> {
    if 'A' as int <= b <= 'Z' as int then Some(b - 'A' as int)
    else if 'a' as int <= b <= 'z' as int then Some(b - 'a' as int + 26)
    else if '0' as int <= b <= '9' as int then Some(b - '0' as int + 52)
    else if b == (if alphabet.UrlAlphabet? then '-' as int else '+' as int) then Some(62)
    else if b == (if alphabet.UrlAlphabet? then '_' as int else '/' as int) then Some(63)
    else None
  }

  lemma SymbolDecodes(alphabet: Alphabet, n: Sextet)
    ensures SextetOf(alphabet, Symbol(alphabet, n)) == Some(n)
  {
  }

  /** RawURLEncoding / RawStdEncoding: no padding. */
  function EncodeRaw(alphabet: Alphabet, bs: Bytes): Bytes {
    if |bs| == 0 then []
    else
      var a := bs[0];
      var first := Symbol(alphabet, a / 4);
      if |bs| == 1 then [first, Symbol(alphabet, a % 4 * 16)]
      else
        var b := bs[1];
        var second := Symbol(alphabet, a % 4 * 16 + b / 16);
        if |bs| == 2 then [first, second, Symbol(alphabet, b % 16 * 4)]
        else
          var c := bs[2];
          [first, second, Symbol(alphabet, b % 16 * 4 + c / 64), Symbol(alphabet, c % 64)]
          + EncodeRaw(alphabet, bs[3..])
  }

  /** Decoding is not strict: the unused low bits of the last symbol are ignored. */
  function DecodeRaw(alphabet: Alphabet, s: Bytes): Result<Bytes, ()> {
    if |s| == 0 then Ok([])
    else if |s| == 1 then Err(())
    else
      var p, q := SextetOf(alphabet, s[0]), SextetOf(alphabet, s[1]);
      if p.None? || q.None? then Err(())
      else
        var first := p.value * 4 + q.value / 16;
        if |s| == 2 then Ok([first])
        else
          var r := SextetOf(alphabet, s[2]);
          if r.None? then Err(())
          else
            var second := q.value % 16 * 16 + r.value / 4;
            if |s| == 3 then Ok([first, second])
            else
              var t := SextetOf(alphabet, s[3]);
              if t.None? then Err(())
              else
                var rest := DecodeRaw(alphabet, s[4..]);
                if rest.Err? then Err(()) else Ok([first, second, r.value % 4 * 64 + t.value] + rest.value)
  }

  lemma OneByteDecodes(alphabet: Alphabet, a: Byte)
    ensures DecodeRaw(alphabet, [Symbol(alphabet, a / 4), Symbol(alphabet, a % 4 * 16)]) == Ok([a])
  {
    SymbolDecodes(alphabet, a / 4);
    SymbolDecodes(alphabet, a % 4 * 16);
  }

  lemma TwoBytesDecode(alphabet: Alphabet, a: Byte, b: Byte)
    ensures DecodeRaw(alphabet, [Symbol(alphabet, a / 4), Symbol(alphabet, a % 4 * 16 + b / 16),
                                 Symbol(alphabet, b % 16 * 4)]) == Ok([a, b])
  {
    SymbolDecodes(alphabet, a / 4);
    SymbolDecodes(alphabet, a % 4 * 16 + b / 16);
    SymbolDecodes(alphabet, b % 16 * 4);
  }

  lemma FourSymbolsDecode(alphabet: Alphabet, p: Sextet, q: Sextet, r: Sextet, t: Sextet, s: Bytes, rest: Bytes)
    requires DecodeRaw(alphabet, s) == Ok(rest)
    ensures DecodeRaw(alphabet, Group(alphabet, p, q, r, t) + s)
            == Ok([p * 4 + q / 16, q % 16 * 16 + r / 4, r % 4 * 64 + t] + rest)
  {
    SymbolDecodes(alphabet, p);
    SymbolDecodes(alphabet, q);
    SymbolDecodes(alphabet, r);
    SymbolDecodes(alphabet, t);
    assert (Group(alphabet, p, q, r, t) + s)[4..] == s;
  }

  function Group(alphabet: Alphabet, p: Sextet, q: Sextet, r: Sextet, t: Sextet): Bytes {
    [Symbol(alphabet, p), Symbol(alphabet, q), Symbol(alphabet, r), Symbol(alphabet, t)]
  }

  lemma GroupBits(a: Byte, b: Byte, c: Byte)
    ensures var p, q, r, t := a / 4, a % 4 * 16 + b / 16, b % 16 * 4 + c / 64, c % 64;
            p * 4 + q / 16 == a && q % 16 * 16 + r / 4 == b && r % 4 * 64 + t == c
  {
  }

  /** Three bytes are encoded by four symbols. */
  lemma GroupDecodes(alphabet: Alphabet, bs: Bytes)
    requires |bs| > 2 && DecodeRaw(alphabet, EncodeRaw(alphabet, bs[3..])) == Ok(bs[3..])
    ensures DecodeRaw(alphabet, EncodeRaw(alphabet, bs)) == Ok(bs)
  {
    var a, b, c, s := bs[0], bs[1], bs[2], EncodeRaw(alphabet, bs[3..]);
    var p, q, r, t := a / 4, a % 4 * 16 + b / 16, b % 16 * 4 + c / 64, c % 64;
    assert EncodeRaw(alphabet, bs) == Group(alphabet, p, q, r, t) + s;
    FourSymbolsDecode(alphabet, p, q, r, t, s, bs[3..]);
    GroupBits(a, b, c);
    assert bs == [a, b, c] + bs[3..];
  }

  lemma {:induction false} RawRoundTrip(alphabet: Alphabet, bs: Bytes)
    ensures DecodeRaw(alphabet, EncodeRaw(alphabet, bs)) == Ok(bs)
    decreases |bs|
  {
    if |bs| == 1 {
      assert bs == [bs[0]];
      OneByteDecodes(alphabet, bs[0]);
    } else if |bs| == 2 {
      assert bs == [bs[0], bs[1]];
      TwoBytesDecode(alphabet, bs[0], bs[1]);
    } else if |bs| > 2 {
      RawRoundTrip(alphabet, bs[3..]);
      GroupDecodes(alphabet, bs);
    }
  }

  predicate IsSymbol(alphabet: Alphabet, b: Byte) {
    SextetOf(alphabet, b).Some?
  }

  lemma SymbolIsSymbol(alphabet: Alphabet, n: Sextet)
    ensures IsSymbol(alphabet, Symbol(alphabet, n))
  {
    SymbolDecodes(alphabet, n);
  }

  lemma LengthOfRest(alphabet: Alphabet, bs: Bytes)
    requires |bs| >= 3
    ensures |EncodeRaw(alphabet, bs)| == 4 + |EncodeRaw(alphabet, bs[3..])|
  {
  }

  lemma LengthOfShort(alphabet: Alphabet, bs: Bytes)
    requires |bs| < 3
    ensures |EncodeRaw(alphabet, bs)| == if |bs| == 0 then 0 else |bs| + 1
  {
  }

  /** How many symbols the last group has. */
  predicate LastGroup(bytes: int, symbols: int) {
    symbols % 4 == if bytes % 3 == 0 then 0 else bytes % 3 + 1
  }

  lemma AnotherGroup(bytes: nat, symbols: nat)
    requires LastGroup(bytes, symbols)
    ensures LastGroup(bytes + 3, symbols + 4)
  {
  }

  lemma PaddedLength(bytes: nat, symbols: nat)
    requires LastGroup(bytes, symbols)
    ensures (symbols + |Padding(bytes)|) % 4 == 0
  {
  }

  lemma {:induction false} EncodedLength(alphabet: Alphabet, bs: Bytes)
    ensures LastGroup(|bs|, |EncodeRaw(alphabet, bs)|)
    decreases |bs|
  {
    if |bs| >= 3 {
      EncodedLength(alphabet, bs[3..]);
      LengthOfRest(alphabet, bs);
      AnotherGroup(|bs[3..]|, |EncodeRaw(alphabet, bs[3..])|);
    } else {
      LengthOfShort(alphabet, bs);
    }
  }

  lemma {:induction false} EncodedSymbols(alphabet: Alphabet, bs: Bytes)
    ensures forall b :: b in EncodeRaw(alphabet, bs) ==> IsSymbol(alphabet, b)
    decreases |bs|
  {
    forall n: Sextet ensures IsSymbol(alphabet, Symbol(alphabet, n)) {
      SymbolIsSymbol(alphabet, n);
    }
    if |bs| >= 3 {
      EncodedSymbols(alphabet, bs[3..]);
    }
  }

  predicate AllSymbols(alphabet: Alphabet, s: Bytes) {
    forall b :: b in s ==> IsSymbol(alphabet, b)
  }

  lemma SymbolsOfGroup(alphabet: Alphabet, s: Bytes)
    requires |s| >= 4
    ensures AllSymbols(alphabet, s) <==>
              && IsSymbol(alphabet, s[0]) && IsSymbol(alphabet, s[1]) && IsSymbol(alphabet, s[2])
              && IsSymbol(alphabet, s[3]) && AllSymbols(alphabet, s[4..])
  {
    assert s == [s[0], s[1], s[2], s[3]] + s[4..];
  }

  lemma SymbolsOfShort(alphabet: Alphabet, s: Bytes)
    requires |s| < 4
    ensures AllSymbols(alphabet, s) <==> forall i :: 0 <= i < |s| ==> IsSymbol(alphabet, s[i])
  {
  }

  /** Exactly the strings of symbols whose length is not one more than a multiple of four are decoded. */
  lemma {:induction false} DecodesExactly(alphabet: Alphabet, s: Bytes)
    ensures DecodeRaw(alphabet, s).Ok? <==> AllSymbols(alphabet, s) && |s| % 4 != 1
    decreases |s|
  {
    if |s| >= 4 {
      DecodesExactly(alphabet, s[4..]);
      SymbolsOfGroup(alphabet, s);
    } else {
      SymbolsOfShort(alphabet, s);
    }
  }

  const NEWLINE: Byte := 10
  const RETURN: Byte := 13
  const PAD: Byte := '=' as int

  /** The decoder skips line breaks anywhere. */
  function WithoutBreaks(s: Bytes): Bytes {
    if s == [] then []
    else (if s[0] == NEWLINE || s[0] == RETURN then [] else [s[0]]) + WithoutBreaks(s[1..])
  }

  lemma {:induction false} NothingToSkip(s: Bytes)
    requires NEWLINE !in s && RETURN !in s
    ensures WithoutBreaks(s) == s
  {
    if s != [] {
      NothingToSkip(s[1..]);
      assert s == [s[0]] + s[1..];
    }
  }

  /** base64.RawURLEncoding.DecodeString */
  function DecodeUrl(s: Bytes): Result<Bytes, ()> {
    DecodeRaw(UrlAlphabet, WithoutBreaks(s))
  }

  lemma UrlRoundTrip(bs: Bytes)
    ensures DecodeUrl(EncodeRaw(UrlAlphabet, bs)) == Ok(bs)
  {
    EncodedSymbols(UrlAlphabet, bs);
    NothingToSkip(EncodeRaw(UrlAlphabet, bs));
    RawRoundTrip(UrlAlphabet, bs);
  }

  /** base64.StdEncoding.EncodeToString */
  function EncodeStd(bs: Bytes): Bytes {
    EncodeRaw(StdAlphabet, bs) + Padding(|bs|)
  }

  function Padding(n: nat): Bytes {
    if n % 3 == 0 then [] else if n % 3 == 1 then [PAD, PAD] else [PAD]
  }

  /** base64.StdEncoding.DecodeString */
  function DecodeStd(s: Bytes): Result<Bytes, ()> {
    var t := WithoutBreaks(s);
    if |t| % 4 != 0 then Err(()) else DecodeRaw(StdAlphabet, Unpadded(t))
  }

  function Unpadded(t: Bytes): Bytes
    requires |t| % 4 == 0
  {
    if t == [] || t[|t| - 1] != PAD then t
    else if t[|t| - 2] != PAD then t[..|t| - 1]
    else t[..|t| - 2]
  }

  lemma StdSymbols(bs: Bytes)
    ensures var raw := EncodeRaw(StdAlphabet, bs); PAD !in raw && NEWLINE !in raw && RETURN !in raw
  {
    EncodedSymbols(StdAlphabet, bs);
  }

  lemma StdRoundTrip(bs: Bytes)
    ensures DecodeStd(EncodeStd(bs)) == Ok(bs)
  {
    var raw, pad := EncodeRaw(StdAlphabet, bs), Padding(|bs|);
    EncodedLength(StdAlphabet, bs);
    PaddedLength(|bs|, |raw|);
    StdSymbols(bs);
    NothingToSkip(raw + pad);
    PaddingComesOff(raw, pad);
    RawRoundTrip(StdAlphabet, bs);
  }

  /** Removing the padding of a padded text leaves the text. */
  lemma PaddingComesOff(raw: Bytes, pad: Bytes)
    requires PAD !in raw && (|raw| + |pad|) % 4 == 0
    requires pad == [] || pad == [PAD] || pad == [PAD, PAD]
    ensures Unpadded(raw + pad) == raw
  {
    assert forall i :: 0 <= i < |raw| ==> raw[i] in raw;
    if pad == [] {
      assert raw + pad == raw;
    } else {
      assert (raw + pad)[..|raw|] == raw;
    }
  }

  // ---------------------------------------------------------------------------------------------
  // UTF-8

  predicate Continuation(b: Byte) {
    0x80 <= b <= 0xBF
  }

  /** utf8.Valid */
  predicate ValidUtf8(s: Bytes)
    decreases |s|
  {
    if s == [] then true
    else if s[0] < 0x80 then ValidUtf8(s[1..])
    else if 0xC2 <= s[0] <= 0xDF then
      |s| >= 2 && Continuation(s[1]) && ValidUtf8(s[2..])
    else if 0xE0 <= s[0] <= 0xEF then
      && |s| >= 3
      && (if s[0] == 0xE0 then 0xA0 <= s[1] <= 0xBF
          else if s[0] == 0xED then 0x80 <= s[1] <= 0x9F
          else Continuation(s[1]))
      && Continuation(s[2]) && ValidUtf8(s[3..])
    else if 0xF0 <= s[0] <= 0xF4 then
      && |s| >= 4
      && (if s[0] == 0xF0 then 0x90 <= s[1] <= 0xBF
          else if s[0] == 0xF4 then 0x80 <= s[1] <= 0x8F
          else Continuation(s[1]))
      && Continuation(s[2]) && Continuation(s[3]) && ValidUtf8(s[4..])
    else false
  }

  /** A code point that may be encoded: not a surrogate. */
  predicate IsScalar(c: int) {
    0 <= c < 0xD800 || 0xE000 <= c < 0x110000
  }

  /** The encoding of one code point (section 3 of RFC 3629). */
  function EncodeScalar(c: int): Bytes
    requires IsScalar(c)
  {
    if c < 0x80 then [c]
    else if c < 0x800 then [0xC0 + c / 64, 0x80 + c % 64]
    else if c < 0x10000 then [0xE0 + c / 4096, 0x80 + c / 64 % 64, 0x80 + c % 64]
    else [0xF0 + c / 262144, 0x80 + c / 4096 % 64, 0x80 + c / 64 % 64, 0x80 + c % 64]
  }

  predicate AreScalars(cs: seq<int>) {
    forall i :: 0 <= i < |cs| ==> IsScalar(cs[i])
  }

  function EncodeScalars(cs: seq<int>): Bytes
    requires AreScalars(cs)
  {
    if cs == [] then [] else EncodeScalar(cs[0]) + EncodeScalars(cs[1..])
  }

  lemma ScalarIsValid(c: int, rest: Bytes)
    requires IsScalar(c)
    ensures ValidUtf8(EncodeScalar(c) + rest) <==> ValidUtf8(rest)
  {
    var e := EncodeScalar(c);
    assert (e + rest)[|e|..] == rest;
    if c < 0x80 {
    } else if c < 0x800 {
      assert 2 <= c / 64 < 32;
    } else if c < 0x10000 {
      ThreeBytes(c);
    } else {
      FourBytes(c);
    }
  }

  lemma ThreeBytes(c: int)
    requires 0x800 <= c < 0x10000 && IsScalar(c)
    ensures var a, b := 0xE0 + c / 4096, 0x80 + c / 64 % 64;
            && 0xE0 <= a <= 0xEF && 0x80 <= b <= 0xBF
            && (a == 0xE0 ==> 0xA0 <= b) && (a == 0xED ==> b <= 0x9F)
  {
    assert c / 64 == c / 4096 * 64 + c / 64 % 64;
  }

  lemma FourBytes(c: int)
    requires 0x10000 <= c < 0x110000
    ensures var a, b := 0xF0 + c / 262144, 0x80 + c / 4096 % 64;
            && 0xF0 <= a <= 0xF4 && 0x80 <= b <= 0xBF
            && (a == 0xF0 ==> 0x90 <= b) && (a == 0xF4 ==> b <= 0x8F)
  {
    assert c / 4096 == c / 262144 * 64 + c / 4096 % 64;
  }

  /** The first code point of a valid string. */
  lemma FirstScalar(s: Bytes) returns (c: int, rest: Bytes)
    requires ValidUtf8(s) && s != []
    ensures IsScalar(c) && s == EncodeScalar(c) + rest && ValidUtf8(rest) && |rest| < |s|
  {
    var w: int := s[0];
    if w < 0x80 {
      c, rest := w, s[1..];
    } else if w <= 0xDF {
      var x: int := s[1];
      c, rest := (w - 0xC0) * 64 + (x - 0x80), s[2..];
      assert s == [s[0], s[1]] + rest;
    } else {
      c, rest := FirstWideScalar(s);
    }
  }

  lemma FirstWideScalar(s: Bytes) returns (c: int, rest: Bytes)
    requires ValidUtf8(s) && s != [] && s[0] > 0xDF
    ensures IsScalar(c) && s == EncodeScalar(c) + rest && ValidUtf8(rest) && |rest| < |s|
  {
    var w: int := s[0];
    if w <= 0xEF {
      var x: int, y: int := s[1], s[2];
      c, rest := (w - 0xE0) * 4096 + (x - 0x80) * 64 + (y - 0x80), s[3..];
      ThreeDigits(w - 0xE0, x - 0x80, y - 0x80);
      assert s == [s[0], s[1], s[2]] + rest;
    } else {
      var x: int, y: int, z: int := s[1], s[2], s[3];
      c, rest := (w - 0xF0) * 262144 + (x - 0x80) * 4096 + (y - 0x80) * 64 + (z - 0x80), s[4..];
      FourDigits(w - 0xF0, x - 0x80, y - 0x80, z - 0x80);
      assert s == [s[0], s[1], s[2], s[3]] + rest;
    }
  }

  lemma ThreeDigits(x: int, y: int, z: int)
    requires 0 <= x < 16 && 0 <= y < 64 && 0 <= z < 64
    ensures var c := x * 4096 + y * 64 + z; c / 4096 == x && c / 64 % 64 == y && c % 64 == z
  {
    var c := x * 4096 + y * 64 + z;
    assert c / 64 == x * 64 + y;
  }

  lemma FourDigits(w: int, x: int, y: int, z: int)
    requires 0 <= w < 8 && 0 <= x < 64 && 0 <= y < 64 && 0 <= z < 64
    ensures var c := w * 262144 + x * 4096 + y * 64 + z;
            c / 262144 == w && c / 4096 % 64 == x && c / 64 % 64 == y && c % 64 == z
  {
    var c := w * 262144 + x * 4096 + y * 64 + z;
    assert c / 64 == w * 4096 + x * 64 + y;
    assert c / 4096 == w * 64 + x;
  }

  /** Valid strings are exactly the encodings of sequences of code points: every encoding is valid, and every valid
      string is one. */
  lemma {:induction false} EncodedIsValid(cs: seq<int>)
    requires AreScalars(cs)
    ensures ValidUtf8(EncodeScalars(cs))
  {
    if cs != [] {
      EncodedIsValid(cs[1..]);
      ScalarIsValid(cs[0], EncodeScalars(cs[1..]));
    }
  }

  lemma {:induction false} ValidIsEncoded(s: Bytes) returns (cs: seq<int>)
    requires ValidUtf8(s)
    ensures AreScalars(cs) && EncodeScalars(cs) == s
    decreases |s|
  {
    if s == [] {
      cs := [];
    } else {
      var c, rest := FirstScalar(s);
      var others := ValidIsEncoded(rest);
      cs := [c] + others;
      assert cs[1..] == others;
    }
  }

  // ---------------------------------------------------------------------------------------------
  // Examples of the standards

  const UPPER: string := "ABCDEFGHIJKLMNOPQRSTUVWXYZ"
  const LOWER: string := "abcdefghijklmnopqrstuvwxyz"
  const DIGITS: string := "0123456789"

  lemma Letters(n: nat)
    ensures n < 26 ==> UPPER[n] as int == 65 + n && LOWER[n] as int == 97 + n
    ensures n < 10 ==> DIGITS[n] as int == 48 + n
  {
  }

  /** The alphabets of sections 4 and 5 of RFC 4648. */
  lemma AlphabetIs(alphabet: Alphabet, n: Sextet)
    ensures |UPPER + LOWER + DIGITS| == 62
    ensures Symbol(alphabet, n) ==
            (UPPER + LOWER + DIGITS + if alphabet.UrlAlphabet? then "-_" else "+/")[n] as int
  {
    if n < 26 {
      Letters(n);
    } else if n < 52 {
      Letters(n - 26);
    } else if n < 62 {
      Letters(n - 52);
    }
  }

  /** Padding, and the order of the bits: "foob" is encoded as "Zm9vYg==", as in section 10 of RFC 4648. */
  lemma EncodedExample()
    ensures EncodeStd([0x66, 0x6F, 0x6F, 0x62]) == [0x5A, 0x6D, 0x39, 0x76, 0x59, 0x67, 0x3D, 0x3D]
    ensures EncodeRaw(UrlAlphabet, [0xFB, 0xFF]) == [0x2D, 0x5F, 0x38]
  {
    var bs: Bytes := [0x66, 0x6F, 0x6F, 0x62];
    assert bs[3..] == [0x62];
    assert EncodeRaw(StdAlphabet, bs[3..]) == [0x59, 0x67];
  }
}
