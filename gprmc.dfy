/**
 * `parse_gprmc_sentence`: splits a `$GPRMC` (recommended minimum GNSS data)
 * sentence into its named fields and checks its checksum. The printed report
 * becomes a returned record; the pass/fail line becomes `Passed()`.
 */
module Gprmc {
  import opened Results
  import opened PyStr
  import opened NmeaChecksum

  /** The fields the parser names, as the text it prints them from. */
  datatype RmcFix = RmcFix(
    timeUtc: string, status: string,
    latitude: string, latDirection: string,
    longitude: string, lonDirection: string,
    speedKnots: string, courseDegrees: string,
    date: string, modeIndicator: string)

  datatype RmcReport = RmcReport(fix: RmcFix, checksumProvided: string, checksumCalculated: string)
  {
    /** "Checksum validation passed." */
    predicate Passed()
    {
      checksumProvided == checksumCalculated
    }
  }

  /** `sentence[7:].split('*')[0]`: the fields after `$GPRMC,` up to the first `*`. */
  function DataPart(sentence: string): (r: string)
    ensures '*' !in r
  {
    Split(Slice(sentence, 7, |sentence|), '*')[0]
  }

  /** `sentence[1:sentence.find('*')]`: everything between `$` and the first `*`. */
  function ChecksumSpan(sentence: string): (r: string)
    requires '*' in sentence
    ensures '*' !in r
  {
    Slice(sentence, 1, Find(sentence, '*').value)
  }

  /** The named fields; the mode indicator is the tenth field when there is one. */
  function FixOf(fields: seq<string>): (f: RmcFix)
    requires |fields| >= 9
    ensures f.modeIndicator == if |fields| > 9 then fields[9] else ""
  {
    RmcFix(fields[0], fields[1], fields[2], fields[3], fields[4], fields[5],
           fields[6], fields[7], fields[8],
           if |fields| > 9 then fields[9] else "")
  }

  /** The outcome of `parse_gprmc_sentence(sentence)`. */
  function ParseGprmc(sentence: string): (r: Result<RmcReport, PyError>)
    ensures !StartsWith(sentence, "$GPRMC") ==> r == Err(ValueError)
    ensures StartsWith(sentence, "$GPRMC") && '*' !in sentence ==> r == Err(IndexError)
    ensures StartsWith(sentence, "$GPRMC") && '*' in sentence ==>
      (r.Ok? <==> Count(DataPart(sentence), ',') >= 8) && (r.Err? ==> r.error == ValueError)
    ensures r.Ok? ==> '*' in sentence && r.value.checksumCalculated == Format02X(XorFold(ChecksumSpan(sentence)))
  {
    if !StartsWith(sentence, "$GPRMC") then Err(ValueError)
    else
      var parts := Split(sentence, '*');
      if |parts| < 2 then Err(IndexError)
      else
        var provided := Split(Strip(parts[1]), '\r')[0];
        var fields := Split(DataPart(sentence), ',');
        SplitCount(DataPart(sentence), ',');
        if |fields| < 9 then Err(ValueError)
        else Ok(RmcReport(FixOf(fields), provided, Format02X(XorFold(ChecksumSpan(sentence)))))
  }

  /** The parser as written: the checksum is accumulated character by character. */
  method ParseGprmcSentence(sentence: string) returns (r: Result<RmcReport, PyError>)
    ensures r == ParseGprmc(sentence)
  {
    if !StartsWith(sentence, "$GPRMC") {
      return Err(ValueError);
    }
    var dataPart := Split(Slice(sentence, 7, |sentence|), '*')[0];
    var parts := Split(sentence, '*');
    if |parts| < 2 {
      return Err(IndexError);
    }
    var provided := Split(Strip(parts[1]), '\r')[0];
    var fields := Split(dataPart, ',');
    if |fields| < 9 {
      return Err(ValueError);
    }
    var span := Slice(sentence, 1, Find(sentence, '*').value);
    var checksum := 0;
    for k := 0 to |span|
      invariant checksum == XorFold(span[..k])
    {
      assert span[..k + 1][..k] == span[..k];
      checksum := Xor(checksum, span[k] as int);
    }
    assert span[..|span|] == span;
    return Ok(RmcReport(FixOf(fields), provided, Format02X(checksum)));
  }

  /**
   * Validation passes exactly when the field after `*` is a canonical
   * two-digit (or longer) upper-case numeral for the XOR of the characters
   * between `$` and `*`, which is the NMEA 0183 checksum.
   */
  lemma PassedMeansChecksum(sentence: string)
    requires ParseGprmc(sentence).Ok?
    ensures ParseGprmc(sentence).value.Passed() <==>
      Canonical02X(ParseGprmc(sentence).value.checksumProvided)
      && ParseHex(ParseGprmc(sentence).value.checksumProvided) == XorFold(ChecksumSpan(sentence))
  {
    var r := ParseGprmc(sentence).value;
    MatchesFormat02X(r.checksumProvided, XorFold(ChecksumSpan(sentence)));
  }

  /** The pieces the parser cuts out of a framed `$GPRMC` sentence. */
  lemma FramedPieces(body: string, hex: string)
    requires '*' !in body && IsHexNumeral(hex)
    ensures StartsWith(Framed("GPRMC", body, hex), "$GPRMC")
    ensures Split(Framed("GPRMC", body, hex), '*') == ["$GPRMC," + body, hex + "\r\n"]
    ensures Split(Strip(hex + "\r\n"), '\r')[0] == hex
    ensures DataPart(Framed("GPRMC", body, hex)) == body
    ensures ChecksumSpan(Framed("GPRMC", body, hex)) == "GPRMC," + body
  {
    assert "$" + "GPRMC" == "$GPRMC";
    assert "GPRMC" + "," + body == "GPRMC," + body;
    assert "$" + "GPRMC" + "," + body == "$GPRMC," + body;
    FramedStar("GPRMC", body, hex);
    FramedSlices("GPRMC", body, hex);
    HexField(hex);
  }

  /** What the parser returns for a framed sentence with at least nine fields. */
  lemma ParseFramed(body: string, hex: string)
    requires '*' !in body && |Split(body, ',')| >= 9 && IsHexNumeral(hex)
    ensures ParseGprmc(Framed("GPRMC", body, hex))
      == Ok(RmcReport(FixOf(Split(body, ',')), hex, Format02X(XorFold("GPRMC," + body))))
  {
    FramedPieces(body, hex);
  }

  /**
   * A sentence framed as `$GPRMC,<body>*<checksum>\r\n`, carrying the NMEA
   * checksum of `GPRMC,<body>` and at least nine fields, is accepted, and
   * its fields are the comma-separated pieces of the body.
   */
  lemma AcceptsChecksummedSentence(body: string)
    requires '*' !in body && |Split(body, ',')| >= 9
    ensures var r := ParseGprmc(Framed("GPRMC", body, Format02X(XorFold("GPRMC," + body))));
      r.Ok? && r.value.Passed()
      && r.value.fix == FixOf(Split(body, ','))
  {
    ParseFramed(body, Format02X(XorFold("GPRMC," + body)));
  }

  /**
   * If one character of the body is changed after the checksum was
   * computed, validation fails.
   */
  lemma RejectsOneChange(a: string, c: char, d: char, b: string)
    requires c != d && '*' !in a + [d] + b && |Split(a + [d] + b, ',')| >= 9
    ensures var r := ParseGprmc(Framed("GPRMC", a + [d] + b, Format02X(XorFold("GPRMC," + a + [c] + b))));
      r.Ok? && !r.value.Passed()
  {
    var pre := "GPRMC," + a;
    var body := a + [d] + b;
    var hex := Format02X(XorFold(pre + [c] + b));
    assert XorFold(pre + [c] + b) != XorFold("GPRMC," + body) by {
      assert "GPRMC," + body == pre + [d] + b;
      DetectsOneChange(pre, c, d, b);
    }
    ParseFramed(body, hex);
  }
}
