/**
 * The field validators of a DUN-14 label and the batch check that splits an
 * imported list into valid and invalid labels.
 */
module Validation {
  import opened Wrappers
  import opened Text
  import opened Dun
  import opened Calendar
  import opened Seqs

  // ---------------------------------------------------------------------
  // GTIN-14 check digit (GS1 General Specifications, section 7.9)
  // ---------------------------------------------------------------------

  /** Weight of the payload digit at index i, counting from the left. */
  function Weight(i: nat): nat {
    if i % 2 == 0 then 3 else 1
  }

  /** `cleaned.split('').map(Number)`. */
  function Digits(s: string): (d: seq<nat>)
    requires AllDigits(s)
    ensures |d| == |s|
    ensures forall i :: 0 <= i < |s| ==> d[i] == DigitValue(s[i]) <= 9
  {
    seq(|s|, i requires 0 <= i < |s| => DigitValue(s[i]))
  }

  predicate AreDigitValues(d: seq<nat>) {
    forall i :: 0 <= i < |d| ==> d[i] <= 9
  }

  /** The sum of d[i] * Weight(i) over every index i. */
  function WeightedSum(d: seq<nat>): nat {
    if d == [] then 0 else WeightedSum(d[..|d| - 1]) + d[|d| - 1] * Weight(|d| - 1)
  }

  /** The check digit the payload digits call for. */
  function CheckDigit(payload: seq<nat>): (c: nat)
    ensures c <= 9
    ensures (WeightedSum(payload) + c) % 10 == 0
  {
    var w := WeightedSum(payload);
    CompletesToTen(w);
    (10 - w % 10) % 10
  }

  lemma CompletesToTen(w: nat)
    ensures (w + (10 - w % 10) % 10) % 10 == 0
  {
    var q, r := w / 10, w % 10;
    assert w == 10 * q + r;
    if r == 0 {
      assert (10 - r) % 10 == 0;
    } else {
      assert (10 - r) % 10 == 10 - r;
      assert w + (10 - r) == 10 * (q + 1);
    }
  }

  /** What `validateGTIN14` accepts. */
  predicate IsValidGTIN14(s: string) {
    |s| == 14 && AllDigits(s) && DigitValue(s[13]) == CheckDigit(Digits(s[..13]))
  }

  /** `validateGTIN14`: length, whitespace strip and digit test, then the check-digit loop. */
  method ValidateGTIN14(gtin: string) returns (ok: bool)
    ensures ok == IsValidGTIN14(gtin)
  {
    if |gtin| != 14 {
      return false;
    }
    var cleaned := RemoveWhitespace(gtin);
    if !(|cleaned| == 14 && AllDigits(cleaned)) {
      return false;
    }
    assert cleaned == gtin;
    var digits := Digits(cleaned);
    var checkDigit := digits[|digits| - 1];
    digits := digits[..|digits| - 1];
    assert digits == Digits(gtin[..13]);
    var sum := 0;
    for i := 0 to |digits|
      invariant sum == WeightedSum(digits[..i])
      invariant 0 <= sum <= 27 * i
    {
      assert digits[..i + 1][..i] == digits[..i];
      sum := sum + digits[i] * (if i % 2 == 0 then 3 else 1);
    }
    assert digits[..|digits|] == digits;
    var calculatedCheckDigit := (10 - sum % 10) % 10;
    ok := checkDigit == calculatedCheckDigit;
  }

  /** The accumulated sum stays within 27 per digit, as in the loop. */
  lemma {:induction false} WeightedSumBound(d: seq<nat>)
    requires AreDigitValues(d)
    ensures 0 <= WeightedSum(d) <= 27 * |d|
  {
    if d != [] {
      WeightedSumBound(d[..|d| - 1]);
    }
  }

  /**
   * The usual statement of the rule: a GTIN-14 is valid exactly when the
   * weighted sum of all fourteen digits, the check digit weighing 1, is a
   * multiple of ten.
   */
  lemma GtinIffSumMultipleOfTen(s: string)
    ensures IsValidGTIN14(s) <==> |s| == 14 && AllDigits(s) && WeightedSum(Digits(s)) % 10 == 0
  {
    if |s| == 14 && AllDigits(s) {
      var d := Digits(s);
      assert d[..13] == Digits(s[..13]);
      assert WeightedSum(d) == WeightedSum(d[..13]) + d[13];
      OnlyCheckDigitCompletes(WeightedSum(d[..13]), d[13]);
    }
  }

  /** Among the digits 0..9, exactly the check digit brings the sum to a multiple of ten. */
  lemma OnlyCheckDigitCompletes(w: nat, x: nat)
    requires x <= 9
    ensures (w + x) % 10 == 0 <==> x == (10 - w % 10) % 10
  {
    var r := w % 10;
    assert w == 10 * (w / 10) + r;
    assert (w + x) % 10 == (r + x) % 10;
    if r + x < 10 {
      assert (r + x) % 10 == r + x;
    } else {
      assert (r + x) % 10 == r + x - 10;
    }
  }

  /** Changing one digit moves the weighted sum by the weight times the change. */
  lemma {:induction false} WeightedSumUpdate(d: seq<nat>, k: nat, v: nat)
    requires k < |d|
    ensures WeightedSum(d[k := v]) == WeightedSum(d) + Weight(k) * (v - d[k])
  {
    var n := |d| - 1;
    assert d[k := v][..n] == if k < n then d[..n][k := v] else d[..n];
    if k < n {
      WeightedSumUpdate(d[..n], k, v);
    }
  }

  /**
   * The check digit catches every single-digit error: replacing any one
   * digit of a valid GTIN-14 by a different digit makes it invalid.
   */
  lemma SingleDigitErrorDetected(s: string, k: nat, c: char)
    requires IsValidGTIN14(s) && k < 14 && IsDigit(c) && c != s[k]
    ensures !IsValidGTIN14(s[k := c])
  {
    var t := s[k := c];
    DigitsUpdate(s, k, c);
    GtinIffSumMultipleOfTen(s);
    GtinIffSumMultipleOfTen(t);
    if DigitValue(c) == DigitValue(s[k]) {
      DigitValueInjective(c, s[k]);
    }
    ChangedDigitMovesSum(Digits(s), k, DigitValue(c));
  }

  /** Replacing one digit value by another takes a multiple of ten to a non-multiple. */
  lemma ChangedDigitMovesSum(d: seq<nat>, k: nat, v: nat)
    requires k < |d| && v <= 9 && d[k] <= 9 && v != d[k]
    requires WeightedSum(d) % 10 == 0
    ensures WeightedSum(d[k := v]) % 10 != 0
  {
    WeightedSumUpdate(d, k, v);
    ChangeVisible(WeightedSum(d), k, v - d[k]);
  }

  lemma DigitValueInjective(a: char, b: char)
    requires IsDigit(a) && IsDigit(b) && DigitValue(a) == DigitValue(b)
    ensures a == b
  {
  }

  lemma DigitsUpdate(s: string, k: nat, c: char)
    requires AllDigits(s) && k < |s| && IsDigit(c)
    ensures AllDigits(s[k := c])
    ensures Digits(s[k := c]) == Digits(s)[k := DigitValue(c)]
  {
  }

  /** A non-zero change of one digit, weighted 1 or 3, never moves a multiple of ten to another. */
  lemma ChangeVisible(u: int, k: nat, delta: int)
    requires u % 10 == 0 && delta != 0 && -9 <= delta <= 9
    ensures (u + Weight(k) * delta) % 10 != 0
  {
    var e := Weight(k) * delta;
    assert e % 10 != 0 by {
      if Weight(k) == 1 {
        assert e == delta;
      } else {
        assert e == 3 * delta;
      }
    }
    assert u == (u / 10) * 10;
    assert (u + e) % 10 == e % 10;
  }

  /** The weighted sum with weights 3, 1, 3, ... counted from the RIGHT end. */
  function RightWeightedSum(d: seq<nat>, threeFirst: bool): nat {
    if d == [] then 0
    else d[|d| - 1] * (if threeFirst then 3 else 1) + RightWeightedSum(d[..|d| - 1], !threeFirst)
  }

  /**
   * GS1 weighs the payload from its right end, the digit next to the check
   * digit weighing 3. For the odd-length GTIN-14 payload (13 digits) the
   * left-to-right weights 3, 1, 3, ... coincide with that rule.
   */
  lemma {:induction false} WeightsMatchRightToLeftRule(d: seq<nat>)
    ensures WeightedSum(d) == RightWeightedSum(d, |d| % 2 == 1)
    ensures |d| == 13 ==> CheckDigit(d) == (10 - RightWeightedSum(d, true) % 10) % 10
  {
    if d != [] {
      WeightsMatchRightToLeftRule(d[..|d| - 1]);
    }
  }

  /** Whitespace never helps: a string holding whitespace is never a valid GTIN-14. */
  lemma WhitespaceNeverValid(s: string, i: nat)
    requires i < |s| && IsWhitespace(s[i])
    ensures !IsValidGTIN14(s)
  {
  }

  /** The sample GTIN, a one-digit change of it, a short string and a non-digit. */
  lemma GtinReferenceVectors()
    ensures IsValidGTIN14(DunSample.gtin14)
    ensures !IsValidGTIN14(DunSample.gtin14[13 := '3'])
    ensures !IsValidGTIN14("1234")
    ensures !IsValidGTIN14("1234567890123A")
  {
    var s := DunSample.gtin14;
    SampleGtinValid(s);
    SingleDigitErrorDetected(s, 13, '3');
    assert !IsDigit("1234567890123A"[13]);
  }

  lemma SampleGtinValid(s: string)
    requires s == "27898971826272"
    ensures IsValidGTIN14(s)
  {
    assert AllDigits(s);
    var p := Digits(s[..13]);
    assert p == [2, 7, 8, 9, 8, 9, 7, 1, 8, 2, 6, 2, 7];
    SamplePayloadSum(p);
    assert CheckDigit(p) == 2;
  }

  lemma SamplePayloadSum(p: seq<nat>)
    requires p == [2, 7, 8, 9, 8, 9, 7, 1, 8, 2, 6, 2, 7]
    ensures WeightedSum(p) == 168
  {
    assert p[..1] == [2];
    assert p[..2] == [2, 7];
    assert p[..3] == [2, 7, 8];
    assert p[..4] == [2, 7, 8, 9];
    assert p[..5] == [2, 7, 8, 9, 8];
    assert p[..6] == [2, 7, 8, 9, 8, 9];
    assert p[..7] == [2, 7, 8, 9, 8, 9, 7];
    assert p[..8] == [2, 7, 8, 9, 8, 9, 7, 1];
    assert p[..9] == [2, 7, 8, 9, 8, 9, 7, 1, 8];
    assert p[..10] == [2, 7, 8, 9, 8, 9, 7, 1, 8, 2];
    assert p[..11] == [2, 7, 8, 9, 8, 9, 7, 1, 8, 2, 6];
    assert p[..12] == [2, 7, 8, 9, 8, 9, 7, 1, 8, 2, 6, 2];
    assert WeightedSum(p[..1]) == 6;
    assert p[..2][..1] == p[..1];
    assert WeightedSum(p[..2]) == 13;
    assert p[..3][..2] == p[..2];
    assert WeightedSum(p[..3]) == 37;
    assert p[..4][..3] == p[..3];
    assert WeightedSum(p[..4]) == 46;
    assert p[..5][..4] == p[..4];
    assert WeightedSum(p[..5]) == 70;
    assert p[..6][..5] == p[..5];
    assert WeightedSum(p[..6]) == 79;
    assert p[..7][..6] == p[..6];
    assert WeightedSum(p[..7]) == 100;
    assert p[..8][..7] == p[..7];
    assert WeightedSum(p[..8]) == 101;
    assert p[..9][..8] == p[..8];
    assert WeightedSum(p[..9]) == 125;
    assert p[..10][..9] == p[..9];
    assert WeightedSum(p[..10]) == 127;
    assert p[..11][..10] == p[..10];
    assert WeightedSum(p[..11]) == 145;
    assert p[..12][..11] == p[..11];
    assert WeightedSum(p[..12]) == 147;
    assert p[..13] == p;
    assert WeightedSum(p) == 168;
  }

  // ---------------------------------------------------------------------
  // SKU, product and quantity
  // ---------------------------------------------------------------------

  /** `validateSKU`: at least three characters once trimmed. */
  function ValidateSKU(sku: string): bool {
    |Trim(sku)| >= 3
  }

  /** `validateProduct`: at least two characters once trimmed. */
  function ValidateProduct(product: string): bool {
    |Trim(product)| >= 2
  }

  /** `validateQuantity`: a positive integer. */
  function ValidateQuantity(qty: int): (ok: bool)
    ensures ok <==> qty >= 1
  {
    qty > 0
  }

  /** Spells out the trimmed string: whitespace, then Trim(s), then whitespace. */
  lemma TrimSplit(s: string) returns (k: nat)
    ensures k + |Trim(s)| <= |s| && Trim(s) == s[k..k + |Trim(s)|]
    ensures forall i :: 0 <= i < k ==> IsWhitespace(s[i])
    ensures forall i :: k + |Trim(s)| <= i < |s| ==> IsWhitespace(s[i])
  {
    var a := TrimStart(s);
    k := |s| - |a|;
    PrefixWhitespace(s, k);
    var t := TrimEnd(a);
    TrimEndInside(s, k, t);
  }

  lemma TrimEndInside(s: string, k: nat, t: string)
    requires k <= |s| && t == TrimEnd(s[k..])
    ensures k + |t| <= |s| && t == s[k..k + |t|]
    ensures forall i :: k + |t| <= i < |s| ==> IsWhitespace(s[i])
  {
    var a := s[k..];
    assert a[..|t|] == s[k..k + |t|];
    assert a[|t|..] == s[k + |t|..];
    SuffixWhitespace(s, k + |t|);
  }

  lemma PrefixWhitespace(s: string, k: nat)
    requires k <= |s| && AllWhitespace(s[..k])
    ensures forall i :: 0 <= i < k ==> IsWhitespace(s[i])
  {
    forall i | 0 <= i < k ensures IsWhitespace(s[i]) {
      assert s[..k][i] == s[i];
    }
  }

  lemma SuffixWhitespace(s: string, k: nat)
    requires k <= |s| && AllWhitespace(s[k..])
    ensures forall i :: k <= i < |s| ==> IsWhitespace(s[i])
  {
    forall i | k <= i < |s| ensures IsWhitespace(s[i]) {
      assert s[k..][i - k] == s[i];
    }
  }

  /** Two non-whitespace characters of s that span at least n positions. */
  predicate NonBlanksApart(s: string, n: nat) {
    exists i, j :: 0 <= i <= j < |s| && j - i + 1 >= n && !IsWhitespace(s[i]) && !IsWhitespace(s[j])
  }

  /**
   * "At least n characters once trimmed" means: two non-whitespace
   * characters at least n - 1 positions apart.
   */
  lemma TrimmedAtLeast(s: string, n: nat)
    requires n >= 1
    ensures |Trim(s)| >= n <==> NonBlanksApart(s, n)
  {
    var k := TrimSplit(s);
    if |Trim(s)| >= n {
      TrimmedHasEnds(s, n, k);
    }
    if NonBlanksApart(s, n) {
      EndsInsideTrim(s, n, k);
    }
  }

  lemma TrimmedHasEnds(s: string, n: nat, k: nat)
    requires n >= 1 && |Trim(s)| >= n
    requires k + |Trim(s)| <= |s| && Trim(s) == s[k..k + |Trim(s)|]
    ensures NonBlanksApart(s, n)
  {
    var t := Trim(s);
    assert s[k] == t[0] && s[k + |t| - 1] == t[|t| - 1];
  }

  lemma EndsInsideTrim(s: string, n: nat, k: nat)
    requires n >= 1 && NonBlanksApart(s, n)
    requires k + |Trim(s)| <= |s|
    requires forall i :: 0 <= i < k ==> IsWhitespace(s[i])
    requires forall i :: k + |Trim(s)| <= i < |s| ==> IsWhitespace(s[i])
    ensures |Trim(s)| >= n
  {
    var i, j :| 0 <= i <= j < |s| && j - i + 1 >= n && !IsWhitespace(s[i]) && !IsWhitespace(s[j]);
    assert k <= i && j < k + |Trim(s)|;
  }

  /** A SKU passes exactly when it has non-blanks at least two positions apart. */
  lemma SkuAcceptance(sku: string)
    ensures ValidateSKU(sku) <==> NonBlanksApart(sku, 3)
  {
    TrimmedAtLeast(sku, 3);
  }

  /** A product name passes exactly when it has two non-blanks, first before last. */
  lemma ProductAcceptance(product: string)
    ensures ValidateProduct(product) <==> NonBlanksApart(product, 2)
  {
    TrimmedAtLeast(product, 2);
  }

  /** Surrounding whitespace changes neither verdict. */
  lemma PaddingIrrelevant(lead: string, s: string, trail: string)
    requires AllWhitespace(lead) && AllWhitespace(trail)
    ensures ValidateSKU(lead + s + trail) == ValidateSKU(s)
    ensures ValidateProduct(lead + s + trail) == ValidateProduct(s)
  {
    TrimPadded(lead, s, trail);
  }

  // ---------------------------------------------------------------------
  // Expiry date
  // ---------------------------------------------------------------------

  /** `/^\d{8}$/` */
  predicate IsCompactDateShape(s: string) {
    |s| == 8 && AllDigits(s)
  }

  /** `/^\d{4}-\d{2}-\d{2}$/` */
  predicate IsIsoDateShape(s: string) {
    |s| == 10 && AllDigits(s[..4]) && s[4] == '-' && AllDigits(s[5..7]) && s[7] == '-' && AllDigits(s[8..])
  }

  /** `/^\d{2}\/\d{2}\/\d{4}$/` */
  predicate IsSlashDateShape(s: string) {
    |s| == 10 && AllDigits(s[..2]) && s[2] == '/' && AllDigits(s[3..5]) && s[5] == '/' && AllDigits(s[6..])
  }

  /** The (year, month, day) read from an expiry string, by the first shape it matches. */
  function ParseExpiry(s: string): (r: Option<Date>)
    ensures r.Some? <==> IsCompactDateShape(s) || IsIsoDateShape(s) || IsSlashDateShape(s)
    ensures r.Some? ==> 0 <= r.value.year <= 9999 && 0 <= r.value.month <= 99 && 0 <= r.value.day <= 99
  {
    if IsCompactDateShape(s) then
      DecimalValueBound(s[..4]); DecimalValueBound(s[4..6]); DecimalValueBound(s[6..]);
      Some(Date(DecimalValue(s[..4]), DecimalValue(s[4..6]), DecimalValue(s[6..])))
    else if IsIsoDateShape(s) then
      DecimalValueBound(s[..4]); DecimalValueBound(s[5..7]); DecimalValueBound(s[8..]);
      Some(Date(DecimalValue(s[..4]), DecimalValue(s[5..7]), DecimalValue(s[8..])))
    else if IsSlashDateShape(s) then
      DecimalValueBound(s[6..]); DecimalValueBound(s[3..5]); DecimalValueBound(s[..2]);
      Some(Date(DecimalValue(s[6..]), DecimalValue(s[3..5]), DecimalValue(s[..2])))
    else
      None
  }

  /**
   * The day `validateExpiryDate` builds from an expiry string, as a day
   * number, or None when the string has none of the three shapes or the
   * `Date` it builds is invalid. `YYYYMMDD` and `DD/MM/YYYY` go through the
   * `Date(year, monthIndex, day)` constructor, which carries overflow and
   * reads years 0 .. 99 as 1900 .. 1999; `YYYY-MM-DD` is parsed as a date
   * string, which is invalid unless the month is 1 .. 12 and the day 1 .. 31.
   */
  function ExpiryDay(s: string): (r: Option<int>)
    ensures ParseExpiry(s).None? ==> r.None?
    ensures r.None? && ParseExpiry(s).Some? ==>
      IsIsoDateShape(s) && !(1 <= ParseExpiry(s).value.month <= 12 && 1 <= ParseExpiry(s).value.day <= 31)
  {
    match ParseExpiry(s)
    case None => None
    case Some(d) =>
      if IsIsoDateShape(s) then
        if 1 <= d.month <= 12 && 1 <= d.day <= 31 then Some(MakeDay(d.year, d.month - 1, d.day)) else None
      else
        Some(MakeDay(FullYear(d.year), d.month - 1, d.day))
  }

  /**
   * `validateExpiryDate`, with the day number of the current local date
   * passed in as `today`: an absent or empty expiry is accepted, a string of
   * none of the three shapes or naming an invalid date is refused, and any
   * other is accepted when its day comes strictly after today.
   */
  function ValidateExpiryDate(expiry: Option<string>, today: int): (ok: bool)
    ensures expiry == None || expiry == Some("") ==> ok
    ensures expiry.Some? && expiry.value != "" && ParseExpiry(expiry.value) == None ==> !ok
  {
    if expiry == None || expiry.value == "" then true
    else match ExpiryDay(expiry.value)
      case None => false
      case Some(day) => day > today
  }

  /**
   * For an expiry naming a calendar date, the expiry is accepted exactly
   * when it comes after today's date by year, month and day: an expiry of
   * today itself is refused. `YYYYMMDD` and `DD/MM/YYYY` need a year of 100
   * or later, since the `Date` constructor reads years 0 .. 99 as 1900 ..
   * 1999; `YYYY-MM-DD` keeps its year as written.
   */
  lemma ExpiryAcceptedIffLater(s: string, t: Date)
    requires ParseExpiry(s).Some? && IsCalendarDate(ParseExpiry(s).value)
    requires IsIsoDateShape(s) || ParseExpiry(s).value.year >= 100
    requires IsCalendarDate(t)
    ensures ValidateExpiryDate(Some(s), DayNumber(t)) <==> IsAfter(ParseExpiry(s).value, t)
    ensures ParseExpiry(s).value == t ==> !ValidateExpiryDate(Some(s), DayNumber(t))
  {
    var d := ParseExpiry(s).value;
    MakeDayOfCalendarDate(d);
    assert ExpiryDay(s) == Some(DayNumber(d));
    IsAfterIffLaterDay(d, t);
  }

  /** A `YYYY-MM-DD` expiry whose month or day is out of range is always refused. */
  lemma IsoOutOfRangeRefused(s: string, today: int)
    requires IsIsoDateShape(s)
    requires !(1 <= ParseExpiry(s).value.month <= 12 && 1 <= ParseExpiry(s).value.day <= 31)
    ensures !ValidateExpiryDate(Some(s), today)
  {
  }

  /**
   * A `YYYYMMDD` or `DD/MM/YYYY` expiry with month 13 is not refused: it
   * stands for the same day of January of the following year.
   */
  lemma MonthThirteenCarries(s: string, today: int)
    requires (IsCompactDateShape(s) || IsSlashDateShape(s)) && ParseExpiry(s).value.month == 13
    requires ParseExpiry(s).value.year >= 100
    ensures ExpiryDay(s) == Some(DayNumber(Date(ParseExpiry(s).value.year + 1, 1, ParseExpiry(s).value.day)))
  {
    var d := ParseExpiry(s).value;
    MonthOverflow(d.year, 0, d.day);
  }

  /**
   * A `YYYYMMDD` or `DD/MM/YYYY` expiry with a two-digit year field reads as
   * a year of the 1900s.
   */
  lemma TwoDigitYearIn1900s(s: string)
    requires (IsCompactDateShape(s) || IsSlashDateShape(s)) && ParseExpiry(s).value.year <= 99
    requires 1 <= ParseExpiry(s).value.month <= 12
    ensures ExpiryDay(s) == Some(DayNumber(Date(1900 + ParseExpiry(s).value.year, ParseExpiry(s).value.month, ParseExpiry(s).value.day)))
  {
    var d := ParseExpiry(s).value;
    assert (d.month - 1) / 12 == 0 && (d.month - 1) % 12 == d.month - 1;
  }

  /** `YYYYMMDD` text of a date. */
  function FormatCompact(d: Date): string
    requires 0 <= d.year <= 9999 && 0 <= d.month <= 99 && 0 <= d.day <= 99
  {
    PadDecimal(d.year, 4) + PadDecimal(d.month, 2) + PadDecimal(d.day, 2)
  }

  /** `YYYY-MM-DD` text of a date. */
  function FormatIso(d: Date): string
    requires 0 <= d.year <= 9999 && 0 <= d.month <= 99 && 0 <= d.day <= 99
  {
    PadDecimal(d.year, 4) + "-" + PadDecimal(d.month, 2) + "-" + PadDecimal(d.day, 2)
  }

  /** `DD/MM/YYYY` text of a date. */
  function FormatSlash(d: Date): string
    requires 0 <= d.year <= 9999 && 0 <= d.month <= 99 && 0 <= d.day <= 99
  {
    PadDecimal(d.day, 2) + "/" + PadDecimal(d.month, 2) + "/" + PadDecimal(d.year, 4)
  }

  lemma PadFields(d: Date)
    requires 0 <= d.year <= 9999 && 0 <= d.month <= 99 && 0 <= d.day <= 99
    ensures DecimalValue(PadDecimal(d.year, 4)) == d.year
    ensures DecimalValue(PadDecimal(d.month, 2)) == d.month
    ensures DecimalValue(PadDecimal(d.day, 2)) == d.day
  {
    assert Pow10(4) == 10000 && Pow10(2) == 100;
    DecimalOfPad(d.year, 4);
    DecimalOfPad(d.month, 2);
    DecimalOfPad(d.day, 2);
  }

  /** Each of the three accepted shapes reads back the date it was written from. */
  lemma ParseFormatRoundTrip(d: Date)
    requires 0 <= d.year <= 9999 && 0 <= d.month <= 99 && 0 <= d.day <= 99
    ensures ParseExpiry(FormatCompact(d)) == Some(d)
    ensures ParseExpiry(FormatIso(d)) == Some(d)
    ensures ParseExpiry(FormatSlash(d)) == Some(d)
  {
    PadFields(d);
    CompactRoundTrip(d);
    IsoRoundTrip(d);
    SlashRoundTrip(d);
  }

  lemma CompactRoundTrip(d: Date)
    requires 0 <= d.year <= 9999 && 0 <= d.month <= 99 && 0 <= d.day <= 99
    requires DecimalValue(PadDecimal(d.year, 4)) == d.year
    requires DecimalValue(PadDecimal(d.month, 2)) == d.month
    requires DecimalValue(PadDecimal(d.day, 2)) == d.day
    ensures ParseExpiry(FormatCompact(d)) == Some(d)
  {
    var y, m, dd := PadDecimal(d.year, 4), PadDecimal(d.month, 2), PadDecimal(d.day, 2);
    var c := FormatCompact(d);
    assert c[..4] == y && c[4..6] == m && c[6..] == dd;
    assert AllDigits(c);
  }

  lemma IsoRoundTrip(d: Date)
    requires 0 <= d.year <= 9999 && 0 <= d.month <= 99 && 0 <= d.day <= 99
    requires DecimalValue(PadDecimal(d.year, 4)) == d.year
    requires DecimalValue(PadDecimal(d.month, 2)) == d.month
    requires DecimalValue(PadDecimal(d.day, 2)) == d.day
    ensures ParseExpiry(FormatIso(d)) == Some(d)
  {
    var y, m, dd := PadDecimal(d.year, 4), PadDecimal(d.month, 2), PadDecimal(d.day, 2);
    var i := FormatIso(d);
    IsoPieces(y, m, dd);
    assert !IsCompactDateShape(i) by { assert !IsDigit(i[4]); }
  }

  lemma IsoPieces(y: string, m: string, dd: string)
    requires |y| == 4 && |m| == 2 && |dd| == 2
    ensures var i := y + "-" + m + "-" + dd;
      i[..4] == y && i[4] == '-' && i[5..7] == m && i[7] == '-' && i[8..] == dd
  {
    var i := y + "-" + m + "-" + dd;
    assert i == (y + "-") + m + ("-" + dd);
    Middle(y + "-", m, "-" + dd);
    assert i == y + ("-" + m + "-") + dd;
    Middle(y, "-" + m + "-", dd);
  }

  lemma SlashRoundTrip(d: Date)
    requires 0 <= d.year <= 9999 && 0 <= d.month <= 99 && 0 <= d.day <= 99
    requires DecimalValue(PadDecimal(d.year, 4)) == d.year
    requires DecimalValue(PadDecimal(d.month, 2)) == d.month
    requires DecimalValue(PadDecimal(d.day, 2)) == d.day
    ensures ParseExpiry(FormatSlash(d)) == Some(d)
  {
    var y, m, dd := PadDecimal(d.year, 4), PadDecimal(d.month, 2), PadDecimal(d.day, 2);
    var sl := FormatSlash(d);
    SlashPieces(dd, m, y);
    assert !IsCompactDateShape(sl) && !IsIsoDateShape(sl) by { assert !IsDigit(sl[2]); }
  }

  lemma SlashPieces(dd: string, m: string, y: string)
    requires |dd| == 2 && |m| == 2 && |y| == 4
    ensures var sl := dd + "/" + m + "/" + y;
      sl[..2] == dd && sl[2] == '/' && sl[3..5] == m && sl[5] == '/' && sl[6..] == y
  {
    var sl := dd + "/" + m + "/" + y;
    assert sl == (dd + "/") + m + ("/" + y);
    Middle(dd + "/", m, "/" + y);
    assert sl == dd + ("/" + m + "/") + y;
    Middle(dd, "/" + m + "/", y);
  }

  /** The three pieces of a concatenation, recovered by slicing. */
  lemma Middle(a: string, b: string, c: string)
    ensures (a + b + c)[..|a|] == a
    ensures (a + b + c)[|a|..|a| + |b|] == b
    ensures (a + b + c)[|a| + |b|..] == c
  {
  }

  /** The three shapes, each accepted for a day that is still ahead, and a past date refused. */
  lemma ExpiryReferenceVectors(t: Date)
    requires IsCalendarDate(t)
    requires IsAfter(Date(2026, 3, 31), t) && IsAfter(t, Date(2020, 1, 1))
    ensures ValidateExpiryDate(Some("20260331"), DayNumber(t))
    ensures ValidateExpiryDate(Some("2026-03-31"), DayNumber(t))
    ensures ValidateExpiryDate(Some("31/03/2026"), DayNumber(t))
    ensures !ValidateExpiryDate(Some("20200101"), DayNumber(t))
  {
    SampleExpiryParses(Date(2026, 3, 31));
    ExpiryAcceptedIffLater("20260331", t);
    ExpiryAcceptedIffLater("2026-03-31", t);
    ExpiryAcceptedIffLater("31/03/2026", t);
    PastExpiryParses(Date(2020, 1, 1));
    ExpiryAcceptedIffLater("20200101", t);
  }

  lemma SampleExpiryParses(d: Date)
    requires d == Date(2026, 3, 31)
    ensures ParseExpiry("20260331") == Some(d)
    ensures ParseExpiry("2026-03-31") == Some(d)
    ensures ParseExpiry("31/03/2026") == Some(d)
  {
    ParseFormatRoundTrip(d);
    SampleTexts(d, "20260331", "2026-03-31", "31/03/2026");
  }

  lemma SampleTexts(d: Date, compact: string, iso: string, slash: string)
    requires d == Date(2026, 3, 31)
    requires compact == "20260331" && iso == "2026-03-31" && slash == "31/03/2026"
    ensures FormatCompact(d) == compact && FormatIso(d) == iso && FormatSlash(d) == slash
  {
    PadSample(d);
    var y, m, dd := PadDecimal(d.year, 4), PadDecimal(d.month, 2), PadDecimal(d.day, 2);
    JoinedFields(y, m, dd, compact, iso, slash);
  }

  lemma JoinedFields(y: string, m: string, dd: string, compact: string, iso: string, slash: string)
    requires y == "2026" && m == "03" && dd == "31"
    requires compact == "20260331" && iso == "2026-03-31" && slash == "31/03/2026"
    ensures y + m + dd == compact
    ensures y + "-" + m + "-" + dd == iso
    ensures dd + "/" + m + "/" + y == slash
  {
  }

  lemma PadSample(d: Date)
    requires d == Date(2026, 3, 31)
    ensures PadDecimal(d.year, 4) == "2026"
    ensures PadDecimal(d.month, 2) == "03"
    ensures PadDecimal(d.day, 2) == "31"
  {
    assert PadDecimal(2, 1) == "2";
    assert PadDecimal(20, 2) == "20";
    assert PadDecimal(202, 3) == "202";
  }

  lemma PastExpiryParses(d: Date)
    requires d == Date(2020, 1, 1)
    ensures ParseExpiry("20200101") == Some(d)
  {
    ParseFormatRoundTrip(d);
    PastText(d);
  }

  lemma PastText(d: Date)
    requires d == Date(2020, 1, 1)
    ensures FormatCompact(d) == "20200101"
  {
    PadFirstOfMonth();
    PadYear202x();
  }

  lemma PadFirstOfMonth()
    ensures PadDecimal(1, 2) == "01"
  {
    assert PadDecimal(0, 1) == "0";
  }

  lemma PadYear202x()
    ensures PadDecimal(2020, 4) == "2020"
    ensures PadDecimal(2027, 4) == "2027"
  {
    assert PadDecimal(2, 1) == "2";
    assert PadDecimal(20, 2) == "20";
    assert PadDecimal(202, 3) == "202";
  }

  // ---------------------------------------------------------------------
  // Whole label and batch partition
  // ---------------------------------------------------------------------

  const GtinError: string := "GTIN-14 inv\U{E1}lido"
  const SkuError: string := "SKU inv\U{E1}lido"
  const ProductError: string := "Produto inv\U{E1}lido"
  const QuantityError: string := "Quantidade inv\U{E1}lida"
  const ExpiryError: string := "Data de validade inv\U{E1}lida"

  /** A label that failed, with its fields copied and the reasons attached. */
  datatype InvalidLabel = InvalidLabel(record: DunLabel, errors: seq<string>)

  /** `!ok && message`: the message of a failed check, or nothing. */
  function Check(ok: bool, message: string): Option<string> {
    if ok then None else Some(message)
  }

  function Kept(entry: Option<string>): seq<string> {
    if entry.Some? then [entry.value] else []
  }

  /** `.filter(Boolean)` over a list of `false`-or-message entries. */
  function Compact(entries: seq<Option<string>>): (r: seq<string>)
    ensures |r| <= |entries|
  {
    if entries == [] then [] else Kept(entries[0]) + Compact(entries[1..])
  }

  /** The error list built for one label from the five verdicts. */
  function LabelErrors(gtinOk: bool, skuOk: bool, productOk: bool, qtyOk: bool, expiryOk: bool): seq<string> {
    Compact([Check(gtinOk, GtinError), Check(skuOk, SkuError), Check(productOk, ProductError),
             Check(qtyOk, QuantityError), Check(expiryOk, ExpiryError)])
  }

  predicate IsValidLabel(l: DunLabel, today: int) {
    IsValidGTIN14(l.gtin14) && ValidateSKU(l.sku) && ValidateProduct(l.product)
    && ValidateQuantity(l.qtyPerBox) && ValidateExpiryDate(l.expiry, today)
  }

  function ErrorsOf(l: DunLabel, today: int): seq<string> {
    LabelErrors(IsValidGTIN14(l.gtin14), ValidateSKU(l.sku), ValidateProduct(l.product),
                ValidateQuantity(l.qtyPerBox), ValidateExpiryDate(l.expiry, today))
  }

  function Flag(failed: bool, message: string): seq<string> {
    if failed then [message] else []
  }

  /** `.filter(Boolean)` keeps the messages of the failed checks, in order. */
  lemma LabelErrorsSpelledOut(gtinOk: bool, skuOk: bool, productOk: bool, qtyOk: bool, expiryOk: bool)
    ensures LabelErrors(gtinOk, skuOk, productOk, qtyOk, expiryOk) ==
      Flag(!gtinOk, GtinError) + Flag(!skuOk, SkuError) + Flag(!productOk, ProductError)
      + Flag(!qtyOk, QuantityError) + Flag(!expiryOk, ExpiryError)
  {
    CompactFive(Check(gtinOk, GtinError), Check(skuOk, SkuError), Check(productOk, ProductError),
                Check(qtyOk, QuantityError), Check(expiryOk, ExpiryError));
  }

  /** `.filter(Boolean)` distributes over concatenation. */
  lemma {:induction false} CompactAppend(x: seq<Option<string>>, y: seq<Option<string>>)
    ensures Compact(x + y) == Compact(x) + Compact(y)
  {
    if x == [] {
      assert x + y == y;
    } else {
      assert (x + y)[0] == x[0];
      assert (x + y)[1..] == x[1..] + y;
      CompactAppend(x[1..], y);
    }
  }

  lemma CompactOne(x: Option<string>)
    ensures Compact([x]) == Kept(x)
  {
    assert [x][1..] == [];
  }

  lemma CompactFive(a: Option<string>, b: Option<string>, c: Option<string>, d: Option<string>, e: Option<string>)
    ensures Compact([a, b, c, d, e]) == Kept(a) + Kept(b) + Kept(c) + Kept(d) + Kept(e)
  {
    assert [a, b, c, d, e] == [a, b, c, d] + [e];
    assert [a, b, c, d] == [a, b, c] + [d];
    assert [a, b, c] == [a, b] + [c];
    assert [a, b] == [a] + [b];
    CompactAppend([a, b, c, d], [e]);
    CompactAppend([a, b, c], [d]);
    CompactAppend([a, b], [c]);
    CompactAppend([a], [b]);
    CompactOne(a);
    CompactOne(b);
    CompactOne(c);
    CompactOne(d);
    CompactOne(e);
  }

  /**
   * The error list holds one message per failing validator and none for a
   * passing one, in the fixed order GTIN-14, SKU, product, quantity, expiry;
   * it is empty exactly when the label is valid.
   */
  lemma ErrorsExact(l: DunLabel, today: int)
    ensures ErrorsOf(l, today) ==
      Flag(!IsValidGTIN14(l.gtin14), GtinError) + Flag(!ValidateSKU(l.sku), SkuError)
      + Flag(!ValidateProduct(l.product), ProductError) + Flag(!ValidateQuantity(l.qtyPerBox), QuantityError)
      + Flag(!ValidateExpiryDate(l.expiry, today), ExpiryError)
    ensures ErrorsOf(l, today) == [] <==> IsValidLabel(l, today)
    ensures GtinError in ErrorsOf(l, today) <==> !IsValidGTIN14(l.gtin14)
    ensures SkuError in ErrorsOf(l, today) <==> !ValidateSKU(l.sku)
    ensures ProductError in ErrorsOf(l, today) <==> !ValidateProduct(l.product)
    ensures QuantityError in ErrorsOf(l, today) <==> !ValidateQuantity(l.qtyPerBox)
    ensures ExpiryError in ErrorsOf(l, today) <==> !ValidateExpiryDate(l.expiry, today)
  {
    var g, s, p, q, x := IsValidGTIN14(l.gtin14), ValidateSKU(l.sku), ValidateProduct(l.product),
      ValidateQuantity(l.qtyPerBox), ValidateExpiryDate(l.expiry, today);
    LabelErrorsSpelledOut(g, s, p, q, x);
    FlagsMembership(g, s, p, q, x);
  }

  lemma FlagsMembership(g: bool, s: bool, p: bool, q: bool, x: bool)
    ensures var r := Flag(!g, GtinError) + Flag(!s, SkuError) + Flag(!p, ProductError)
      + Flag(!q, QuantityError) + Flag(!x, ExpiryError);
      && (r == [] <==> g && s && p && q && x)
      && (GtinError in r <==> !g) && (SkuError in r <==> !s) && (ProductError in r <==> !p)
      && (QuantityError in r <==> !q) && (ExpiryError in r <==> !x)
  {
    assert GtinError != SkuError && GtinError != ProductError && GtinError != QuantityError && GtinError != ExpiryError;
    assert SkuError != ProductError && SkuError != QuantityError && SkuError != ExpiryError;
    assert ProductError != QuantityError && ProductError != ExpiryError && QuantityError != ExpiryError;
  }

  /** The labels that pass, in input order and unchanged. */
  function ValidPart(labels: seq<DunLabel>, today: int): seq<DunLabel> {
    Filter(labels, l => IsValidLabel(l, today))
  }

  function Reject(l: DunLabel, today: int): InvalidLabel {
    InvalidLabel(l, ErrorsOf(l, today))
  }

  /** The labels that fail, in input order, each with its error list. */
  function InvalidPart(labels: seq<DunLabel>, today: int): seq<InvalidLabel> {
    Map(Filter(labels, l => !IsValidLabel(l, today)), l => Reject(l, today))
  }

  /** `validateLabelList`, with the current local date passed in as `today`. */
  method ValidateLabelList(labels: seq<DunLabel>, today: int)
    returns (validLabels: seq<DunLabel>, invalidLabels: seq<InvalidLabel>)
    ensures validLabels == ValidPart(labels, today)
    ensures invalidLabels == InvalidPart(labels, today)
  {
    validLabels, invalidLabels := [], [];
    for k := 0 to |labels|
      invariant validLabels == ValidPart(labels[..k], today)
      invariant invalidLabels == InvalidPart(labels[..k], today)
    {
      PartitionStep(labels, k, today);
      var record := labels[k];
      var isGtin14Valid := ValidateGTIN14(record.gtin14);
      var isSkuValid := ValidateSKU(record.sku);
      var isProductValid := ValidateProduct(record.product);
      var isQuantityValid := ValidateQuantity(record.qtyPerBox);
      var isExpiryValid := ValidateExpiryDate(record.expiry, today);
      if isGtin14Valid && isSkuValid && isProductValid && isQuantityValid && isExpiryValid {
        validLabels := validLabels + [record];
      } else {
        invalidLabels := invalidLabels
          + [InvalidLabel(record, LabelErrors(isGtin14Valid, isSkuValid, isProductValid, isQuantityValid, isExpiryValid))];
      }
    }
    assert labels[..|labels|] == labels;
  }

  /** Each output of a one-label list: the label itself, or its rejection. */
  lemma PartitionSingle(l: DunLabel, today: int)
    ensures ValidPart([l], today) == if IsValidLabel(l, today) then [l] else []
    ensures InvalidPart([l], today) == if IsValidLabel(l, today) then [] else [Reject(l, today)]
  {
    FilterSingle(l, x => IsValidLabel(x, today));
    FilterSingle(l, x => !IsValidLabel(x, today));
    if !IsValidLabel(l, today) {
      assert Map([l], x => Reject(x, today))[0] == Reject(l, today);
    }
  }

  lemma PartitionStep(labels: seq<DunLabel>, k: nat, today: int)
    requires k < |labels|
    ensures ValidPart(labels[..k + 1], today) == ValidPart(labels[..k], today)
      + (if IsValidLabel(labels[k], today) then [labels[k]] else [])
    ensures InvalidPart(labels[..k + 1], today) == InvalidPart(labels[..k], today)
      + (if IsValidLabel(labels[k], today) then [] else [Reject(labels[k], today)])
  {
    assert labels[..k + 1] == labels[..k] + [labels[k]];
    PartitionAppend(labels[..k], [labels[k]], today);
    PartitionSingle(labels[k], today);
  }

  /** Every label lands in exactly one of the two lists: none dropped, none doubled. */
  lemma PartitionSizes(labels: seq<DunLabel>, today: int)
    ensures |ValidPart(labels, today)| + |InvalidPart(labels, today)| == |labels|
  {
    FilterComplementSizes(labels, l => IsValidLabel(l, today), l => !IsValidLabel(l, today));
  }

  /**
   * The partition is stable: splitting the input anywhere splits both
   * outputs at the same place, so each output keeps the input order.
   */
  lemma PartitionAppend(a: seq<DunLabel>, b: seq<DunLabel>, today: int)
    ensures ValidPart(a + b, today) == ValidPart(a, today) + ValidPart(b, today)
    ensures InvalidPart(a + b, today) == InvalidPart(a, today) + InvalidPart(b, today)
  {
    FilterAppend(a, b, l => IsValidLabel(l, today));
    FilterAppend(a, b, l => !IsValidLabel(l, today));
    MapAppend(Filter(a, l => !IsValidLabel(l, today)), Filter(b, l => !IsValidLabel(l, today)), l => Reject(l, today));
  }

  /** The valid list holds exactly the input labels that pass, unchanged. */
  lemma ValidPartMembers(labels: seq<DunLabel>, today: int, l: DunLabel)
    ensures l in ValidPart(labels, today) <==> l in labels && IsValidLabel(l, today)
  {
    FilterMembers(labels, x => IsValidLabel(x, today), l);
  }

  /**
   * The invalid list holds exactly the input labels that fail, each with its
   * fields unchanged and the error list of its failing validators.
   */
  lemma InvalidPartMembers(labels: seq<DunLabel>, today: int, e: InvalidLabel)
    ensures e in InvalidPart(labels, today) <==>
      e.record in labels && !IsValidLabel(e.record, today) && e.errors == ErrorsOf(e.record, today)
  {
    var keep := l => !IsValidLabel(l, today);
    var reject := l => Reject(l, today);
    var failing := Filter(labels, keep);
    assert InvalidPart(labels, today) == Map(failing, reject);
    if e in Map(failing, reject) {
      var x := MapSource(failing, reject, e);
      FilterMembers(labels, keep, x);
    }
    if e.record in labels && !IsValidLabel(e.record, today) && e.errors == ErrorsOf(e.record, today) {
      FilterMembers(labels, keep, e.record);
      MapHas(failing, reject, e.record);
      assert reject(e.record) == e;
    }
  }

  /** The sample label with a wrong check digit and an empty box. */
  const TwoFaultLabel: DunLabel :=
    DunLabel("D24-ALV26278", "27898971826273", "Pasta", 0, "32X25X16", "3,095", None, None)

  lemma TwoFaultVerdicts(today: int)
    ensures !IsValidGTIN14(TwoFaultLabel.gtin14)
    ensures ValidateSKU(TwoFaultLabel.sku) && ValidateProduct(TwoFaultLabel.product)
    ensures !ValidateQuantity(TwoFaultLabel.qtyPerBox) && ValidateExpiryDate(TwoFaultLabel.expiry, today)
  {
    TwoFaultGtin(TwoFaultLabel.gtin14);
    TwoFaultTexts(TwoFaultLabel.sku, TwoFaultLabel.product);
  }

  /** The two-fault label's SKU and product name need no trimming and are long enough. */
  lemma TwoFaultTexts(sku: string, product: string)
    requires sku == TwoFaultLabel.sku && product == TwoFaultLabel.product
    ensures ValidateSKU(sku) && ValidateProduct(product)
  {
    assert !IsWhitespace(sku[0]) && !IsWhitespace(sku[|sku| - 1]);
    assert TrimStart(sku) == sku && TrimEnd(sku) == sku;
    assert !IsWhitespace(product[0]) && !IsWhitespace(product[|product| - 1]);
    assert TrimStart(product) == product && TrimEnd(product) == product;
  }

  /** The two-fault label's GTIN is the sample GTIN with its check digit changed. */
  lemma TwoFaultGtin(g: string)
    requires g == TwoFaultLabel.gtin14
    ensures !IsValidGTIN14(g)
  {
    GtinReferenceVectors();
    assert g == DunSample.gtin14[13 := '3'];
  }

  lemma TwoFaultErrors(today: int)
    ensures !IsValidLabel(TwoFaultLabel, today)
    ensures ErrorsOf(TwoFaultLabel, today) == [GtinError, QuantityError]
  {
    TwoFaultVerdicts(today);
    GtinAndQuantityFaults(TwoFaultLabel, today);
  }

  lemma GtinAndQuantityFaults(l: DunLabel, today: int)
    requires !IsValidGTIN14(l.gtin14) && ValidateSKU(l.sku) && ValidateProduct(l.product)
    requires !ValidateQuantity(l.qtyPerBox) && ValidateExpiryDate(l.expiry, today)
    ensures ErrorsOf(l, today) == [GtinError, QuantityError]
  {
    LabelErrorsSpelledOut(false, true, true, false, true);
  }

  /** A single failing label goes to the invalid list with its error list. */
  lemma SingleFailingLabel(l: DunLabel, today: int)
    requires !IsValidLabel(l, today)
    ensures InvalidPart([l], today) == [InvalidLabel(l, ErrorsOf(l, today))]
    ensures ValidPart([l], today) == []
  {
    PartitionSingle(l, today);
  }

  /** A label with a bad check digit and a zero quantity reports exactly those two faults. */
  lemma TwoFaultsReported(today: int)
    ensures InvalidPart([TwoFaultLabel], today) == [InvalidLabel(TwoFaultLabel, [GtinError, QuantityError])]
    ensures ValidPart([TwoFaultLabel], today) == []
  {
    TwoFaultErrors(today);
    SingleFailingLabel(TwoFaultLabel, today);
  }
}
