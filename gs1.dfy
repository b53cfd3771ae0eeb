/**
 * The GS1-128 element string of a label, for Application Identifiers
 * (01) GTIN, (17) expiry date and (10) batch or lot (GS1 General
 * Specifications, section 3).
 */
module GS1 {
  import opened Wrappers
  import opened Text
  import opened Seqs
  import opened Dun
  import opened Calendar
  import opened Validation

  /** Truthiness of an optional string in JavaScript: present and not empty. */
  predicate IsPresent(o: Option<string>) {
    o.Some? && o.value != ""
  }

  /**
   * `toYYMMDD`: an ISO `YYYY-MM-DD` date as the six digits `YYMMDD` of AI
   * (17); anything else, including the other two shapes the expiry check
   * accepts, gives no date.
   */
  function ToYYMMDD(iso: Option<string>): (r: Option<string>)
    ensures r.Some? <==> iso.Some? && IsIsoDateShape(iso.value)
    ensures r.Some? ==> |r.value| == 6 && AllDigits(r.value)
  {
    if !IsPresent(iso) then None
    else if !IsIsoDateShape(iso.value) then None
    else
      var s := iso.value;
      Some(s[2..4] + s[5..7] + s[8..10])
  }

  /**
   * The six digits carry the same date the expiry check reads from the
   * string: the year modulo 100, the month and the day.
   */
  lemma ToYYMMDDAgreesWithExpiry(s: string)
    requires ToYYMMDD(Some(s)).Some?
    ensures ParseExpiry(s).Some?
    ensures var r, d := ToYYMMDD(Some(s)).value, ParseExpiry(s).value;
      DecimalValue(r[..2]) == d.year % 100 && DecimalValue(r[2..4]) == d.month && DecimalValue(r[4..]) == d.day
  {
    var r := ToYYMMDD(Some(s)).value;
    assert r[..2] == s[2..4] && r[2..4] == s[5..7] && r[4..] == s[8..10];
    assert s[8..10] == s[8..];
    CenturyDropped(s[..4]);
  }

  /** The last two digits of a four-digit year are the year modulo 100. */
  lemma CenturyDropped(y: string)
    requires |y| == 4 && AllDigits(y)
    ensures DecimalValue(y[2..]) == DecimalValue(y) % 100
  {
    assert y == y[..2] + y[2..];
    DecimalValueAppend(y[..2], y[2..]);
    DecimalValueBound(y[2..]);
    assert Pow10(2) == 100;
  }

  /** The GS1 reading of a date, used for the (17) field. */
  lemma ToYYMMDDVectors()
    ensures ToYYMMDD(Some("2026-03-31")) == Some("260331")
    ensures ToYYMMDD(Some("31/03/2026")) == None
    ensures ToYYMMDD(Some("20260331")) == None
    ensures ToYYMMDD(None) == None && ToYYMMDD(Some("")) == None
  {
    var s := "2026-03-31";
    assert AllDigits(s[..4]) && AllDigits(s[5..7]) && AllDigits(s[8..]);
    assert s[2..4] + s[5..7] + s[8..10] == "260331";
    assert !IsDigit("31/03/2026"[2]);
  }

  /** The two strings a label's barcode is drawn from. */
  datatype GS1Strings = GS1Strings(valueForEncoding: string, humanReadable: string)

  /** `buildGS1Strings`: AI (01), then (17) when the expiry normalises, then (10) when a lot is given. */
  function BuildGS1Strings(d: DunLabel): (r: GS1Strings)
    ensures |r.valueForEncoding| >= 2 + |d.gtin14| && r.valueForEncoding[..2 + |d.gtin14|] == "01" + d.gtin14
    ensures |r.humanReadable| >= 4 + |d.gtin14| && r.humanReadable[..4 + |d.gtin14|] == "(01)" + d.gtin14
    ensures |r.valueForEncoding| == 2 + |d.gtin14|
      + (if ToYYMMDD(d.expiry).Some? then 8 else 0) + (if IsPresent(d.lot) then 2 + |d.lot.value| else 0)
  {
    var yyMMdd := ToYYMMDD(d.expiry);
    var hr := "(01)" + d.gtin14
      + (if IsPresent(yyMMdd) then "(17)" + yyMMdd.value else "")
      + (if IsPresent(d.lot) then "(10)" + d.lot.value else "");
    var enc := "01" + d.gtin14
      + (if IsPresent(yyMMdd) then "17" + yyMMdd.value else "")
      + (if IsPresent(d.lot) then "10" + d.lot.value else "");
    assert enc[..2 + |d.gtin14|] == "01" + d.gtin14;
    assert hr[..4 + |d.gtin14|] == "(01)" + d.gtin14;
    GS1Strings(enc, hr)
  }

  /** The fields read back from a GS1 element string. */
  datatype ElementFields = ElementFields(gtin: string, expiry: Option<string>, lot: Option<string>)

  /**
   * Reads an element string of AI (01) with its fixed 14 characters, then
   * an optional AI (17) with its fixed 6, then an optional AI (10) that
   * runs to the end of the string.
   */
  function ParseElementString(s: string): Option<ElementFields> {
    if |s| < 16 || s[..2] != "01" then None
    else
      var gtin, rest := s[2..16], s[16..];
      var hasDate := |rest| >= 8 && rest[..2] == "17";
      var expiry := if hasDate then Some(rest[2..8]) else None;
      var tail := if hasDate then rest[8..] else rest;
      if tail == [] then Some(ElementFields(gtin, expiry, None))
      else if |tail| >= 2 && tail[..2] == "10" then Some(ElementFields(gtin, expiry, Some(tail[2..])))
      else None
  }

  /**
   * With a 14-character GTIN, the encoded value reads back as the GTIN, the
   * normalised date and the lot: since (10) comes last, leaving out the
   * FNC1 separator loses nothing.
   */
  lemma EncodingRoundTrip(d: DunLabel)
    requires |d.gtin14| == 14
    ensures ParseElementString(BuildGS1Strings(d).valueForEncoding)
      == Some(ElementFields(d.gtin14, ToYYMMDD(d.expiry), if IsPresent(d.lot) then d.lot else None))
  {
    var yyMMdd := ToYYMMDD(d.expiry);
    var date := if IsPresent(yyMMdd) then "17" + yyMMdd.value else "";
    var lot := if IsPresent(d.lot) then "10" + d.lot.value else "";
    var enc := BuildGS1Strings(d).valueForEncoding;
    assert enc == ("01" + d.gtin14) + (date + lot);
    var rest := date + lot;
    assert enc[..2] == "01" && enc[2..16] == d.gtin14 && enc[16..] == rest;
    if IsPresent(yyMMdd) {
      assert rest[..2] == "17" && rest[2..8] == yyMMdd.value && rest[8..] == lot;
    } else {
      assert rest == lot;
      assert lot != [] ==> lot[..2] == "10";
    }
    if IsPresent(d.lot) {
      assert lot[..2] == "10" && lot[2..] == d.lot.value;
    }
  }

  predicate IsNotParen(c: char) {
    c != '(' && c != ')'
  }

  /** The printed form with every parenthesis deleted. */
  function StripParens(s: string): string {
    Filter(s, IsNotParen)
  }

  lemma StripAppend(a: string, b: string)
    ensures StripParens(a + b) == StripParens(a) + StripParens(b)
  {
    FilterAppend(a, b, IsNotParen);
  }

  lemma StripNoParens(s: string)
    requires '(' !in s && ')' !in s
    ensures StripParens(s) == s
  {
    FilterKeepsAll(s, IsNotParen);
  }

  /** `(ai)` loses its parentheses. */
  lemma StripAiLabel(ai: string)
    requires |ai| == 2 && AllDigits(ai)
    ensures StripParens("(" + ai + ")") == ai
  {
    StripAppend("(" + ai, ")");
    StripAppend("(", ai);
    FilterSingle('(', IsNotParen);
    FilterSingle(')', IsNotParen);
    StripNoParens(ai);
  }

  /** A segment `(ai)value` loses exactly its two parentheses. */
  lemma StripSegment(ai: string, v: string)
    requires |ai| == 2 && AllDigits(ai)
    requires '(' !in v && ')' !in v
    ensures StripParens("(" + ai + ")" + v) == ai + v
  {
    StripAppend("(" + ai + ")", v);
    StripAiLabel(ai);
    StripNoParens(v);
  }

  /** The printed segment of an optional field, stripped, is its encoded segment. */
  lemma StripOptionalSegment(ai: string, v: Option<string>)
    requires |ai| == 2 && AllDigits(ai)
    requires v.Some? ==> '(' !in v.value && ')' !in v.value
    ensures StripParens(if IsPresent(v) then "(" + ai + ")" + v.value else "")
         == (if IsPresent(v) then ai + v.value else "")
  {
    if IsPresent(v) {
      StripSegment(ai, v.value);
    }
  }

  lemma DigitsHaveNoParens(s: string)
    requires AllDigits(s)
    ensures '(' !in s && ')' !in s
  {
    assert forall i :: 0 <= i < |s| ==> IsDigit(s[i]);
  }

  /**
   * When neither the GTIN nor the lot holds a parenthesis, the encoded value
   * is the printed form with its parentheses deleted.
   */
  lemma EncodingIsPrintedWithoutParens(d: DunLabel)
    requires '(' !in d.gtin14 && ')' !in d.gtin14
    requires d.lot.Some? ==> '(' !in d.lot.value && ')' !in d.lot.value
    ensures StripParens(BuildGS1Strings(d).humanReadable) == BuildGS1Strings(d).valueForEncoding
  {
    var y := ToYYMMDD(d.expiry);
    var hGtin := "(" + "01" + ")" + d.gtin14;
    var hDate := if IsPresent(y) then "(" + "17" + ")" + y.value else "";
    var hLot := if IsPresent(d.lot) then "(" + "10" + ")" + d.lot.value else "";
    PrintedSegments(d, hGtin, hDate, hLot);
    StripAppend(hGtin + hDate, hLot);
    StripAppend(hGtin, hDate);
    StripSegment("01", d.gtin14);
    if y.Some? {
      DigitsHaveNoParens(y.value);
    }
    StripOptionalSegment("17", y);
    StripOptionalSegment("10", d.lot);
    BuildSegments(d);
  }

  lemma PrintedSegments(d: DunLabel, hGtin: string, hDate: string, hLot: string)
    requires hGtin == "(" + "01" + ")" + d.gtin14
    requires hDate == if IsPresent(ToYYMMDD(d.expiry)) then "(" + "17" + ")" + ToYYMMDD(d.expiry).value else ""
    requires hLot == if IsPresent(d.lot) then "(" + "10" + ")" + d.lot.value else ""
    ensures BuildGS1Strings(d).humanReadable == hGtin + hDate + hLot
  {
    assert "(01)" == "(" + "01" + ")";
    assert "(17)" == "(" + "17" + ")";
    assert "(10)" == "(" + "10" + ")";
    BuildSegments(d);
  }

  /** ASCII GS, the FNC1 field separator of a GS1 element string. */
  const GroupSeparator: char := '\U{1D}'

  /** No field separator is ever inserted: one appears only if the GTIN or lot brought it. */
  lemma NoSeparatorInserted(d: DunLabel)
    requires GroupSeparator !in d.gtin14
    requires d.lot.Some? ==> GroupSeparator !in d.lot.value
    ensures GroupSeparator !in BuildGS1Strings(d).valueForEncoding
  {
    var yyMMdd := ToYYMMDD(d.expiry);
    if yyMMdd.Some? {
      assert forall i :: 0 <= i < |yyMMdd.value| ==> IsDigit(yyMMdd.value[i]);
    }
  }

  /** The assembled strings, segment by segment. */
  lemma BuildSegments(d: DunLabel)
    ensures var y := ToYYMMDD(d.expiry);
      BuildGS1Strings(d) == GS1Strings(
        "01" + d.gtin14 + (if y.Some? then "17" + y.value else "") + (if IsPresent(d.lot) then "10" + d.lot.value else ""),
        "(01)" + d.gtin14 + (if y.Some? then "(17)" + y.value else "") + (if IsPresent(d.lot) then "(10)" + d.lot.value else ""))
  {
  }

  /** With neither a usable expiry nor a lot, only the AI (01) segment is left. */
  lemma GtinOnly(d: DunLabel)
    requires ToYYMMDD(d.expiry) == None && !IsPresent(d.lot)
    ensures BuildGS1Strings(d) == GS1Strings("01" + d.gtin14, "(01)" + d.gtin14)
  {
    BuildSegments(d);
  }

  /** With both an ISO expiry and a lot, the segments come in the order (01), (17), (10). */
  lemma AllThreeSegments(d: DunLabel, yyMMdd: string)
    requires ToYYMMDD(d.expiry) == Some(yyMMdd) && IsPresent(d.lot)
    ensures BuildGS1Strings(d) == GS1Strings(
      "01" + d.gtin14 + ("17" + yyMMdd) + ("10" + d.lot.value),
      "(01)" + d.gtin14 + ("(17)" + yyMMdd) + ("(10)" + d.lot.value))
  {
    BuildSegments(d);
  }

  lemma SampleDate(expiry: Option<string>)
    requires expiry == Some("2026-03-31")
    ensures ToYYMMDD(expiry) == Some("260331")
  {
    ToYYMMDDVectors();
  }

  lemma SampleEncodedConcatenation(gtin: string, yyMMdd: string, lot: string)
    requires gtin == "27898971826272" && yyMMdd == "260331" && lot == "L2409-A"
    ensures "01" + gtin + ("17" + yyMMdd) + ("10" + lot) == "01278989718262721726033110L2409-A"
  {
  }

  lemma SamplePrintedConcatenation(gtin: string, yyMMdd: string, lot: string)
    requires gtin == "27898971826272" && yyMMdd == "260331" && lot == "L2409-A"
    ensures "(01)" + gtin + ("(17)" + yyMMdd) + ("(10)" + lot) == "(01)27898971826272(17)260331(10)L2409-A"
  {
  }

  /** The strings of the sample label, and of the sample without lot and expiry. */
  lemma SampleStrings(d: DunLabel)
    requires d == DunSample
    ensures BuildGS1Strings(d) == GS1Strings(
      "01278989718262721726033110L2409-A", "(01)27898971826272(17)260331(10)L2409-A")
    ensures BuildGS1Strings(d.(lot := None, expiry := None)) == GS1Strings(
      "0127898971826272", "(01)27898971826272")
  {
    SampleFullStrings(d);
    SampleBareStrings(d.(lot := None, expiry := None));
  }

  lemma SampleFullStrings(d: DunLabel)
    requires d.gtin14 == "27898971826272" && d.lot == Some("L2409-A") && d.expiry == Some("2026-03-31")
    ensures BuildGS1Strings(d) == GS1Strings(
      "01278989718262721726033110L2409-A", "(01)27898971826272(17)260331(10)L2409-A")
  {
    SampleDate(d.expiry);
    AllThreeSegments(d, "260331");
    SampleEncodedConcatenation(d.gtin14, "260331", d.lot.value);
    SamplePrintedConcatenation(d.gtin14, "260331", d.lot.value);
  }

  lemma SampleBareStrings(d: DunLabel)
    requires d.gtin14 == "27898971826272" && d.lot == None && d.expiry == None
    ensures BuildGS1Strings(d) == GS1Strings("0127898971826272", "(01)27898971826272")
  {
    GtinOnly(d);
    SampleBareEncoded(d.gtin14);
    SampleBarePrinted(d.gtin14);
  }

  lemma SampleBareEncoded(gtin: string)
    requires gtin == "27898971826272"
    ensures "01" + gtin == "0127898971826272"
  {
  }

  lemma SampleBarePrinted(gtin: string)
    requires gtin == "27898971826272"
    ensures "(01)" + gtin == "(01)27898971826272"
  {
  }

  lemma CompactDateNotNormalised(expiry: Option<string>)
    requires expiry == Some("20270101")
    ensures ToYYMMDD(expiry) == None
  {
    assert !IsIsoDateShape(expiry.value);
  }

  /**
   * The two date checks disagree: an expiry written `YYYYMMDD` can pass
   * validation and still be dropped from the barcode, which then carries no
   * (17) segment at all.
   */
  lemma CompactExpiryDroppedFromBarcode(d: DunLabel, t: Date)
    requires d == DunSample.(expiry := Some("20270101"))
    requires IsCalendarDate(t) && IsAfter(Date(2027, 1, 1), t)
    ensures ValidateExpiryDate(d.expiry, DayNumber(t))
    ensures ToYYMMDD(d.expiry) == None
    ensures BuildGS1Strings(d).valueForEncoding == "01" + d.gtin14 + "10" + d.lot.value
  {
    CompactSampleParses(d.expiry.value);
    ExpiryAcceptedIffLater(d.expiry.value, t);
    CompactDateNotNormalised(d.expiry);
    BuildSegments(d);
  }

  lemma CompactSampleParses(s: string)
    requires s == "20270101"
    ensures ParseExpiry(s) == Some(Date(2027, 1, 1))
  {
    var date := Date(2027, 1, 1);
    ParseFormatRoundTrip(date);
    CompactSampleText(date);
  }

  lemma CompactSampleText(date: Date)
    requires date == Date(2027, 1, 1)
    ensures FormatCompact(date) == "20270101"
  {
    PadFirstOfMonth();
    PadYear202x();
  }
}
