/** The anchor string `<operation count>.<core index URI>` (pkg/anchor/util/anchordata.go). */
module AnchorString {
  import opened Common
  import opened ByteStrings

  const DOT: Byte := '.' as int
  const ZERO: Byte := '0' as int

  datatype AnchorData = AnchorData(operationCount: Uint64, coreIndexFileURI: Bytes)

  datatype Error = WrongParts | NotPositive | OutOfRange

  /** fmt.Sprintf("%d", n) */
  function Decimal(n: nat): (s: Bytes)
    ensures s != []
  {
    if n < 10 then [ZERO + n] else Decimal(n / 10) + [ZERO + n % 10]
  }

  /** The regular expression ^[1-9]\d*$ */
  predicate IsPositiveInteger(s: Bytes) {
    s != [] && s[0] != ZERO && forall i :: 0 <= i < |s| ==> IsDigit(s[i])
  }

  /** The number a string of digits stands for. */
  function DecimalValue(s: Bytes): nat
    requires forall i :: 0 <= i < |s| ==> IsDigit(s[i])
  {
    if s == [] then 0
    else
      assert IsDigit(s[|s| - 1]);
      DecimalValue(s[..|s| - 1]) * 10 + (s[|s| - 1] - ZERO)
  }

  function ParseAnchorString(anchor: Bytes): Result<AnchorData, Error> {
    var parts := Split(anchor, DOT);
    if |parts| != 2 then Err(WrongParts)
    else if !IsPositiveInteger(parts[0]) then Err(NotPositive)
    else
      var n := DecimalValue(parts[0]);
      if n >= 0x1_0000_0000_0000_0000 then Err(OutOfRange) else Ok(AnchorData(n, parts[1]))
  }

  function GetAnchorString(ad: AnchorData): Bytes {
    Decimal(ad.operationCount) + [DOT] + ad.coreIndexFileURI
  }

  lemma {:induction false} DecimalRoundTrip(n: nat)
    ensures forall i :: 0 <= i < |Decimal(n)| ==> IsDigit(Decimal(n)[i])
    ensures DecimalValue(Decimal(n)) == n
    ensures Decimal(n)[0] == ZERO <==> n == 0
  {
    if n >= 10 {
      DecimalRoundTrip(n / 10);
      var s := Decimal(n);
      assert s[..|s| - 1] == Decimal(n / 10);
    }
  }

  /** Printing the value of a string without leading zeros gives back the string. */
  lemma {:induction false} DecimalOfValue(s: Bytes)
    requires IsPositiveInteger(s)
    ensures DecimalValue(s) > 0 && Decimal(DecimalValue(s)) == s
    decreases |s|
  {
    var front, last := s[..|s| - 1], s[|s| - 1];
    assert s == front + [last];
    if front != [] {
      DecimalOfValue(front);
    }
  }

  /** Parsing the printed form returns the same data exactly for positive counts and URIs without a dot. */
  lemma ParseOfPrinted(ad: AnchorData)
    ensures ParseAnchorString(GetAnchorString(ad)) == Ok(ad) <==>
              ad.operationCount > 0 && DOT !in ad.coreIndexFileURI
    ensures ad.operationCount == 0 || DOT in ad.coreIndexFileURI ==>
              ParseAnchorString(GetAnchorString(ad)).Err?
  {
    var n, uri := ad.operationCount, ad.coreIndexFileURI;
    DecimalRoundTrip(n);
    assert DOT !in Decimal(n);
    SplitFirst(Decimal(n), DOT, uri);
    if DOT !in uri {
      SplitUnseparated(uri, DOT);
    } else {
      SplitSeparated(uri, DOT);
    }
  }

  /** Printing what any accepted string was parsed to gives back that string. */
  lemma PrintOfParsed(anchor: Bytes)
    requires ParseAnchorString(anchor).Ok?
    ensures var ad := ParseAnchorString(anchor).value;
            && GetAnchorString(ad) == anchor
            && ad.operationCount > 0
            && DOT !in ad.coreIndexFileURI
  {
    var parts := Split(anchor, DOT);
    JoinSplit(anchor, DOT);
    assert Join(parts, DOT) == parts[0] + [DOT] + Join(parts[1..], DOT);
    DecimalOfValue(parts[0]);
  }
}
