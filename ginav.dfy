/**
 * `parse_ginav_sentence`: splits a `$GINAV` (navigation solution) sentence
 * into its twelve named fields and checks its checksum. The checksum here is
 * the XOR of the data fields only, without the `GINAV,` address that the
 * NMEA 0183 checksum also covers.
 */
module Ginav {
  import opened Results
  import opened PyStr
  import opened NmeaChecksum

  /** The fields the parser names, as the text it prints them from. */
  datatype NavFix = NavFix(
    fixQuality: string, year: string,
    latitude: string, latDirection: string,
    longitude: string, lonDirection: string,
    numSatellites: string, hdop: string,
    altitude: string, altitudeUnits: string,
    geoidalSeparation: string, geoidalUnits: string)

  datatype NavReport = NavReport(fix: NavFix, checksumProvided: string, checksumCalculated: string)
  {
    /** "Checksum validation passed." */
    predicate Passed()
    {
      checksumProvided == checksumCalculated
    }
  }

  /**
   * `sentence[7:sentence.find('*')]`: the fields after `$GINAV,` up to the
   * first `*`; without a `*`, `find` answers -1 and the slice stops one
   * character short of the end.
   */
  function DataPart(sentence: string): (r: string)
    ensures '*' in sentence ==> '*' !in r
  {
    match Find(sentence, '*')
    case Some(i) => Slice(sentence, 7, i)
    case None => Slice(sentence, 7, if |sentence| > 0 then |sentence| - 1 else 0)
  }

  /** The twelve named fields, in order. */
  function FixOf(fields: seq<string>): (f: NavFix)
    requires |fields| >= 12
    ensures f.fixQuality == fields[0] && f.geoidalUnits == fields[11]
  {
    NavFix(fields[0], fields[1], fields[2], fields[3], fields[4], fields[5],
           fields[6], fields[7], fields[8], fields[9], fields[10], fields[11])
  }

  /** The outcome of `parse_ginav_sentence(sentence)`. */
  function ParseGinav(sentence: string): (r: Result<NavReport, PyError>)
    ensures !StartsWith(sentence, "$GINAV") ==> r == Err(ValueError)
    ensures StartsWith(sentence, "$GINAV") && '*' !in sentence ==> r == Err(IndexError)
    ensures StartsWith(sentence, "$GINAV") && '*' in sentence ==>
      (r.Ok? <==> Count(DataPart(sentence), ',') >= 11) && (r.Err? ==> r.error == ValueError)
    ensures r.Ok? ==> '*' in sentence && r.value.checksumCalculated == Format02X(XorFold(DataPart(sentence)))
  {
    if !StartsWith(sentence, "$GINAV") then Err(ValueError)
    else
      var dataPart := DataPart(sentence);
      var parts := Split(sentence, '*');
      if |parts| < 2 then Err(IndexError)
      else
        var provided := Strip(parts[1]);
        var calculated := Format02X(XorFold(dataPart));
        var fields := Split(dataPart, ',');
        SplitCount(dataPart, ',');
        if |fields| < 12 then Err(ValueError)
        else Ok(NavReport(FixOf(fields), provided, calculated))
  }

  /** The parser as written: the checksum is accumulated character by character. */
  method ParseGinavSentence(sentence: string) returns (r: Result<NavReport, PyError>)
    ensures r == ParseGinav(sentence)
  {
    if !StartsWith(sentence, "$GINAV") {
      return Err(ValueError);
    }
    var star := Find(sentence, '*');
    var dataPart := if star.Some? then Slice(sentence, 7, star.value) else Slice(sentence, 7, |sentence| - 1);
    var parts := Split(sentence, '*');
    if |parts| < 2 {
      return Err(IndexError);
    }
    var provided := Strip(parts[1]);
    var checksum := 0;
    for k := 0 to |dataPart|
      invariant checksum == XorFold(dataPart[..k])
    {
      assert dataPart[..k + 1][..k] == dataPart[..k];
      checksum := Xor(checksum, dataPart[k] as int);
    }
    assert dataPart[..|dataPart|] == dataPart;
    var calculated := Format02X(checksum);
    var fields := Split(dataPart, ',');
    if |fields| < 12 {
      return Err(ValueError);
    }
    return Ok(NavReport(FixOf(fields), provided, calculated));
  }

  /**
   * Validation passes exactly when the field after `*` is a canonical
   * upper-case numeral for the XOR of the data fields alone.
   */
  lemma PassedMeansDataChecksum(sentence: string)
    requires ParseGinav(sentence).Ok?
    ensures ParseGinav(sentence).value.Passed() <==>
      Canonical02X(ParseGinav(sentence).value.checksumProvided)
      && ParseHex(ParseGinav(sentence).value.checksumProvided) == XorFold(DataPart(sentence))
  {
    var r := ParseGinav(sentence).value;
    MatchesFormat02X(r.checksumProvided, XorFold(DataPart(sentence)));
  }

  /** The pieces the parser cuts out of a framed `$GINAV` sentence. */
  lemma FramedPieces(body: string, hex: string)
    requires '*' !in body && IsHexNumeral(hex)
    ensures StartsWith(Framed("GINAV", body, hex), "$GINAV")
    ensures Split(Framed("GINAV", body, hex), '*') == ["$GINAV," + body, hex + "\r\n"]
    ensures Strip(hex + "\r\n") == hex
    ensures DataPart(Framed("GINAV", body, hex)) == body
  {
    assert "$" + "GINAV" == "$GINAV";
    assert "$" + "GINAV" + "," + body == "$GINAV," + body;
    FramedStar("GINAV", body, hex);
    FramedSlices("GINAV", body, hex);
    HexField(hex);
  }

  /** What the parser returns for a framed sentence with at least twelve fields. */
  lemma ParseFramed(body: string, hex: string)
    requires '*' !in body && |Split(body, ',')| >= 12 && IsHexNumeral(hex)
    ensures ParseGinav(Framed("GINAV", body, hex))
      == Ok(NavReport(FixOf(Split(body, ',')), hex, Format02X(XorFold(body))))
  {
    FramedPieces(body, hex);
  }

  /**
   * A framed sentence whose checksum field is the XOR of its data fields
   * alone is accepted, and its fields are the comma-separated pieces of the body.
   */
  lemma AcceptsDataChecksum(body: string)
    requires '*' !in body && |Split(body, ',')| >= 12
    ensures var r := ParseGinav(Framed("GINAV", body, Format02X(XorFold(body))));
      r.Ok? && r.value.Passed() && r.value.fix == FixOf(Split(body, ','))
  {
    ParseFramed(body, Format02X(XorFold(body)));
  }

  /** The XOR of the address field `GINAV,` is odd: three of its six code points are. */
  lemma AddressChecksumOdd()
    ensures XorFold("GINAV,") % 2 == 1
  {
    assert "G"[..0] == "" && "GI"[..1] == "G" && "GIN"[..2] == "GI";
    assert "GINA"[..3] == "GIN" && "GINAV"[..4] == "GINA" && "GINAV,"[..5] == "GINAV";
    XorHalves(0, 'G' as int);
    XorHalves(XorFold("G"), 'I' as int);
    XorHalves(XorFold("GI"), 'N' as int);
    XorHalves(XorFold("GIN"), 'A' as int);
    XorHalves(XorFold("GINA"), 'V' as int);
    XorHalves(XorFold("GINAV"), ',' as int);
  }

  /** The standard checksum of a GINAV sentence never equals the XOR of its data fields. */
  lemma StandardDiffersFromData(body: string)
    ensures XorFold("GINAV," + body) != XorFold(body)
  {
    var address := XorFold("GINAV,");
    XorFoldAppend("GINAV,", body);
    AddressChecksumOdd();
    XorCommutes(address, XorFold(body));
    XorNonzeroChanges(address, XorFold(body));
  }

  /**
   * A sentence carrying the NMEA 0183 checksum, the XOR of everything
   * between `$` and `*` (address included), is always reported as failing
   * validation, since the address alone XORs to a non-zero value.
   */
  lemma RejectsStandardChecksum(body: string)
    requires '*' !in body && |Split(body, ',')| >= 12
    ensures var r := ParseGinav(Framed("GINAV", body, Format02X(XorFold("GINAV," + body))));
      r.Ok? && !r.value.Passed()
  {
    StandardDiffersFromData(body);
    ParseFramed(body, Format02X(XorFold("GINAV," + body)));
  }
}
