# DUN-14 label kernel

This project models the logic core of a small web application that prints GS1 logistics labels (DUN-14 / GTIN-14 shipping-case labels) and proves properties of it. The core has three parts:

- **Field validation** (`validation.dfy`, module `Validation`):
  - the GTIN-14 check digit (GS1 General Specifications, section 7.9);
  - the SKU, product and quantity checks;
  - the expiry-date check, which accepts `YYYYMMDD`, `YYYY-MM-DD` or `DD/MM/YYYY` and requires a date strictly after today;
  - the batch check, which splits an imported label list into valid labels and invalid labels, each invalid one carrying its ordered error messages.
- **GS1 element strings** (`gs1.dfy`, module `GS1`):
  - the ISO-to-`YYMMDD` date conversion used by Application Identifier (17);
  - the two forms of the GS1-128 string for AIs (01), (17) and (10): the raw form that goes into the barcode and the parenthesised human-readable form.
- **Saved label sets and CSV export** (`label_storage.dfy`, module `LabelStorage`):
  - a `LabelStore` class whose one field is the browser-storage entry under the key `dun-saved-labels`;
  - its save, delete and read operations;
  - the CSV text the export builds.

Supporting modules:
- `Wrappers`: `Option`.
- `Text`: digits, whitespace, `trim`, decimal values.
- `Seqs`: filter and map with their algebra.
- `Dun`: the `DunLabel` record and the sample label.
- `Calendar`: proleptic Gregorian day numbers, plus the overflow rules of the JavaScript `Date` constructor.

The model follows the code's own form:
- `ValidateGTIN14` is a method with the source's accumulating loop.
- `ValidateLabelList` is a method that appends to two sequences, as the source pushes into two arrays.
- Save and delete are methods of a class that change its storage entry.
- Everything else is functions and lemmas.

Each operation is tied to an independent statement about it:
- **GTIN-14 check digit:** an independent "weighted sum of all fourteen digits is a multiple of ten" characterisation, and the right-to-left formulation of the GS1 rule.
- **SKU/product checks:** a trim-free characterisation.
- **Expiry check:** the calendar order of dates.
- **Batch check:** the filter-based definitions of the two parts.
- **Raw GS1 string:** a parser that reads the raw string back and recovers the fields.
- **Human-readable GS1 string:** it equals the raw string once the parentheses are removed.
- **Delete:** the save it undoes.
- **CSV export:** a line splitter and a quoted-row parser that read the text back.

Time and identity come in as parameters, because the source obtains them from the environment:
- **Validation:** `today` is the day number of the local midnight that `new Date()` / `setHours(0,0,0,0)` produces.
- **Save:** `now` stands for `Date.now()`, and `createdAt` for `new Date().toISOString()`.

The browser store is the `StoredEntry` field of `LabelStore`, which is one of:
- `Missing`: nothing stored, or empty text;
- `Unreadable`: text that `JSON.parse` rejects;
- `Stored(sets)`: the parsed sets.

### How the expiry check follows JavaScript `Date`

The source builds a `Date` and compares timestamps. The model does the same on day numbers:

- **`YYYYMMDD` and `DD/MM/YYYY`** go through `new Date(year, month - 1, day)`. As in JavaScript:
  - years 0–99 mean 1900–1999 (`Calendar.FullYear`);
  - month 13 carries into January of the next year, and a month of 00 falls back into December of the previous year;
  - a day beyond the month's length carries into the following month, and day 00 is the last day of the previous month (`Calendar.MakeDay`);
  - such inputs are therefore accepted or refused by their normalised date, not refused as malformed.
- **`YYYY-MM-DD`** goes through `new Date(string)`:
  - a month outside 1–12 or a day outside 1–31 gives an invalid date, which is never later than today, so the label is refused;
  - a day of 29–31 beyond the month's length rolls over into the next month, as the V8 engine does.

## Model

| member | source | states |
|---|---|---|
| Validation.ValidateGTIN14 | src/app/_utils/validation.ts:4-22 | the loop-based check (length 14, digits only, weights 3,1 from the left over the 13 payload digits, check digit `(10 - sum % 10) % 10`) returns exactly `IsValidGTIN14` |
| Validation.CheckDigit | src/app/_utils/validation.ts:20 | the computed check digit is in 0..9 and brings the weighted sum to a multiple of ten |
| Validation.WeightedSumBound | src/app/_utils/validation.ts:15-18 | the accumulated sum over i digits lies between 0 and 27·i |
| Validation.GtinIffSumMultipleOfTen | src/app/_utils/validation.ts:4-22 | a string is a valid GTIN-14 iff it is 14 digits whose weighted sum over all 14 positions (the check digit at weight 1) is a multiple of ten |
| Validation.OnlyCheckDigitCompletes | src/app/_utils/validation.ts:20-21 | among the digits 0..9, exactly one completes a payload sum to a multiple of ten, and it is the computed check digit |
| Validation.WeightedSumUpdate | src/app/_utils/validation.ts:17 | changing one digit changes the weighted sum by that position's weight times the difference |
| Validation.SingleDigitErrorDetected | src/app/_utils/validation.ts:12-21 | replacing any one digit of a valid GTIN-14 by a different digit makes it invalid |
| Validation.ChangedDigitMovesSum | src/app/_utils/validation.ts:17-21 | a one-digit change moves a multiple-of-ten weighted sum off the multiples of ten |
| Validation.WeightsMatchRightToLeftRule | src/app/_utils/validation.ts:15-20 | the left-to-right weights 3,1,… over 13 digits are the GS1 General Specifications section 7.9 rule (weight 3 on the digit next to the check digit, alternating leftwards) |
| Validation.WhitespaceNeverValid | src/app/_utils/validation.ts:5-9 | a string containing any whitespace character is never a valid GTIN-14, since the length is checked before the strip |
| Validation.GtinReferenceVectors | src/app/_utils/validation.ts:4-22 | the sample label's GTIN `27898971826272` is valid; changing its last digit, `1234`, and a 14-character string with a letter are invalid |
| Validation.SamplePayloadSum | src/data/dun.ts:5 | the weighted sum of the sample GTIN's 13 payload digits is 168 |
| Validation.SkuAcceptance | src/app/_utils/validation.ts:25-27 | a SKU is accepted iff it holds two non-whitespace characters at least 3 positions apart inclusive, i.e. its trimmed length is at least 3 |
| Validation.ProductAcceptance | src/app/_utils/validation.ts:66-68 | a product name is accepted iff its trimmed length is at least 2, stated without `trim` |
| Validation.ValidateQuantity | src/app/_utils/validation.ts:71-73 | accepts exactly the quantities of one or more |
| Validation.TrimmedAtLeast | src/app/_utils/validation.ts:26 | trimmed length at least n iff two non-whitespace characters span n positions |
| Validation.PaddingIrrelevant | src/app/_utils/validation.ts:25-27 | leading and trailing whitespace never changes the SKU or product verdict |
| Validation.ParseExpiry | src/app/_utils/validation.ts:34-56 | a date is read iff the text has one of the three shapes; the fields read are at most 4 and 2 digits |
| Validation.ExpiryDay | src/app/_utils/validation.ts:43-57 | no day for text of none of the shapes; the only refused well-shaped input is an ISO text whose month or day is out of range |
| Validation.ValidateExpiryDate | src/app/_utils/validation.ts:30-63 | absent or empty expiry is accepted; text of none of the three shapes is refused whatever today is |
| Validation.ExpiryAcceptedIffLater | src/app/_utils/validation.ts:44-62 | for a real calendar date in any of the three shapes (year ≥ 100 for `YYYYMMDD` and `DD/MM/YYYY`, any year for `YYYY-MM-DD`), the expiry is accepted iff it is strictly after today, so a same-day expiry is refused |
| Validation.IsoOutOfRangeRefused | src/app/_utils/validation.ts:50-52 | an ISO-shaped text whose month is outside 1..12 or day outside 1..31 is refused |
| Validation.MonthThirteenCarries | src/app/_utils/validation.ts:44-56 | month 13 in the compact or slash shape means January of the next year |
| Validation.TwoDigitYearIn1900s | src/app/_utils/validation.ts:46-56 | a year below 100 in the compact or slash shape is read as 1900 plus it |
| Validation.ParseFormatRoundTrip | src/app/_utils/validation.ts:34-56 | each of the three shapes, written from a date, reads back to that date |
| Validation.ExpiryReferenceVectors | src/app/_utils/validation.ts:30-63 | between 2020-01-01 and 2026-03-31, `20260331`, `2026-03-31` and `31/03/2026` are accepted and `20200101` refused |
| Validation.LabelErrorsSpelledOut | src/app/_utils/validation.ts:139-145 | the error list is one message per failing check, in the order GTIN-14, SKU, product, quantity, expiry |
| Validation.CompactAppend | src/app/_utils/validation.ts:145 | dropping the `false` entries distributes over concatenation |
| Validation.CompactFive | src/app/_utils/validation.ts:139-145 | filtering the five-entry list keeps exactly the present messages, in order |
| Validation.ErrorsExact | src/app/_utils/validation.ts:128-146 | a label's errors are its failing checks' messages in fixed order; empty iff the label is valid; each message present iff its check fails |
| Validation.FlagsMembership | src/app/_utils/validation.ts:134-145 | the five flags give an empty list iff all checks pass, and each message appears iff its flag is false |
| Validation.ValidateLabelList | src/app/_utils/validation.ts:123-151 | the loop's two outputs are the order-preserving valid part (records unchanged) and invalid part (record plus its errors) |
| Validation.PartitionStep | src/app/_utils/validation.ts:127-147 | handling one more label appends it to exactly one of the two outputs |
| Validation.PartitionSingle | src/app/_utils/validation.ts:134-147 | one label lands in the valid part iff it is valid, otherwise in the invalid part with its errors |
| Validation.PartitionSizes | src/app/_utils/validation.ts:123-151 | the two outputs together have as many records as the input |
| Validation.PartitionAppend | src/app/_utils/validation.ts:127 | the partition of a concatenation is the concatenation of the partitions (relative order kept) |
| Validation.ValidPartMembers | src/app/_utils/validation.ts:134-135 | a record is in the valid part iff it is an input record that passes every check |
| Validation.InvalidPartMembers | src/app/_utils/validation.ts:136-146 | an entry is in the invalid part iff its record is a failing input record and its errors are that record's errors |
| Validation.TwoFaultErrors | src/app/_utils/validation.ts:136-146 | a label with a bad GTIN and zero quantity is reported with exactly the GTIN-14 and quantity messages |
| Validation.GtinAndQuantityFaults | src/app/_utils/validation.ts:136-146 | any label failing exactly the GTIN-14 and quantity checks gets exactly those two messages, in that order |
| Validation.SingleFailingLabel | src/app/_utils/validation.ts:136-147 | a failing label alone yields no valid record and one invalid entry carrying the record and its errors |
| Validation.TwoFaultsReported | src/app/_utils/validation.ts:123-151 | a list holding only the two-fault label gives an empty valid part and one entry with the two messages |
| Calendar.IsAfterIffLaterDay | src/app/_utils/validation.ts:62 | for calendar dates, a later day number is the same as a later (year, month, day) |
| Calendar.MakeDayOfCalendarDate | src/app/_utils/validation.ts:49-56 | `new Date(y, m - 1, d)` of a real calendar date is that date's day |
| Calendar.DayOverflow | src/app/_utils/validation.ts:49-56 | a day beyond the month's length carries into the next month |
| Calendar.DayZero | src/app/_utils/validation.ts:49-56 | day 0 is the last day of the previous month |
| Calendar.MonthOverflow | src/app/_utils/validation.ts:47-56 | month index 12 + k is month k of the next year |
| Calendar.MonthUnderflow | src/app/_utils/validation.ts:47-56 | month index −1 is December of the previous year |
| Calendar.DaysBeforeYearMonotone | src/app/_utils/validation.ts:62 | the day count before a year grows with the year by at least the earlier year's length |
| Calendar.DaysBeforeMonthMonotone | src/app/_utils/validation.ts:62 | the day count before a month grows with the month by at least the earlier month's length |
| Calendar.DayOfYearBound | src/app/_utils/validation.ts:62 | a calendar date's offset inside its year is less than the year's length |
| Text.TrimPadded | src/app/_utils/validation.ts:26 | trimming ignores any whitespace added at either end |
| Text.DecimalOfPad | src/app/_utils/validation.ts:46-55 | a zero-padded decimal numeral reads back to its value |
| GS1.ToYYMMDD | src/app/_utils/gs1.ts:4-10 | a result exists iff the input is present and exactly `dddd-dd-dd`; it is then six digits |
| GS1.ToYYMMDDAgreesWithExpiry | src/app/_utils/gs1.ts:6-9 | the six digits are the year modulo 100, the month and the day that the expiry check reads from the same text |
| GS1.CenturyDropped | src/app/_utils/gs1.ts:8 | the last two digits of a four-digit year are the year modulo 100 |
| GS1.ToYYMMDDVectors | src/app/_utils/gs1.ts:4-10 | `2026-03-31` gives `260331`; the compact and slash shapes, absent and empty input give nothing |
| GS1.BuildGS1Strings | src/app/_utils/gs1.ts:21-37 | both strings start with the AI (01) segment; the raw string's length is 2 + GTIN length, plus 8 with a date, plus 2 + lot length with a lot |
| GS1.EncodingRoundTrip | src/app/_utils/gs1.ts:24-34 | segments come in the fixed order (01), then (17) only if the date converts, then (10) only if the lot is non-empty: a parser reading (01), an optional (17) and a (10) that runs to the end recovers the GTIN, the YYMMDD date and the lot from the raw string |
| GS1.EncodingIsPrintedWithoutParens | src/app/_utils/gs1.ts:24-34 | when GTIN and lot contain no parentheses, the raw string is the human-readable string with every parenthesis removed |
| GS1.NoSeparatorInserted | src/app/_utils/gs1.ts:29-34 | no group separator (ASCII 29) is added to the raw string |
| GS1.GtinOnly | src/app/_utils/gs1.ts:24-34 | with no convertible date and no lot, the strings are exactly `01`+GTIN and `(01)`+GTIN |
| GS1.AllThreeSegments | src/app/_utils/gs1.ts:24-34 | with a date and a lot, both strings hold all three segments in order |
| GS1.SampleStrings | src/data/dun.ts:3-12 | the sample label gives `01278989718262721726033110L2409-A` and `(01)27898971826272(17)260331(10)L2409-A`; without lot and expiry, `0127898971826272` and `(01)27898971826272` |
| GS1.CompactExpiryDroppedFromBarcode | src/app/_utils/gs1.ts:22-34 | the sample label with a compact `20270101` expiry passes validation before 2027 but gives no (17) segment in the raw string |
| LabelStorage.LabelStore.GetSavedLabelSets | src/app/_utils/labelStorage.ts:29-38 | an absent, empty or unreadable entry reads as the empty list; a stored entry reads as its sets |
| LabelStorage.LabelStore.SaveLabelSet | src/app/_utils/labelStorage.ts:13-27 | the new set has id `now` in decimal, the given name, labels and creation time, and orientation defaulting to portrait; it is appended at the end, the list grows by one and earlier sets are unchanged |
| LabelStorage.LabelStore.DeleteLabelSet | src/app/_utils/labelStorage.ts:40-44 | the stored list becomes the previous list without the sets carrying that id |
| LabelStorage.WithoutId | src/app/_utils/labelStorage.ts:42 | the filtered list is no longer and holds no set with that id |
| LabelStorage.WithoutIdMembers | src/app/_utils/labelStorage.ts:42 | a set survives deletion iff it was in the list and has another id |
| LabelStorage.WithoutIdAppend | src/app/_utils/labelStorage.ts:42 | deletion distributes over concatenation, so the other sets keep their order |
| LabelStorage.WithoutAbsentId | src/app/_utils/labelStorage.ts:42 | deleting an id no set carries leaves the list unchanged |
| LabelStorage.WithoutIdIdempotent | src/app/_utils/labelStorage.ts:42 | deleting the same id twice is the same as deleting it once |
| LabelStorage.DeleteUndoesSave | src/app/_utils/labelStorage.ts:13-44 | deleting the id of a freshly appended set with a new id restores the earlier list |
| LabelStorage.NatToString | src/app/_utils/labelStorage.ts:16 | the decimal text of n is non-empty digits with value n and no leading zero |
| LabelStorage.RowCells | src/app/_utils/labelStorage.ts:59-68 | a row has one cell per header |
| LabelStorage.HeaderFields | src/app/_utils/labelStorage.ts:58-71 | the header line splits on commas back into the eight header names and has no line break |
| LabelStorage.SplitJoin | src/app/_utils/labelStorage.ts:71-73 | splitting a join on its separator gives the parts back when no part contains the separator |
| LabelStorage.CsvLines | src/app/_utils/labelStorage.ts:57-73 | when no cell holds a line break, the CSV text has exactly 1 + n lines: the header line, then each label's quoted row in input order |
| LabelStorage.RowLineAvoids | src/app/_utils/labelStorage.ts:72 | a row line contains a character other than comma and quote only if a cell does |
| LabelStorage.ParseQuotedCells | src/app/_utils/labelStorage.ts:72 | quoting every cell and joining with commas reads back to the cells when no cell contains a quote |
| LabelStorage.RowReadsBack | src/app/_utils/labelStorage.ts:59-72 | a label's row reads back to its eight cells in field order; the quantity cell is its decimal text, and a missing lot or expiry is the empty cell |
| LabelStorage.QuantityCellReadsBack | src/app/_utils/labelStorage.ts:63 | the quantity cell of a non-negative quantity is its decimal numeral |

## Left out

- Validation.ValidateExpiryDate: does not model daylight-saving time. The ISO shape parses as UTC midnight and the other shapes as local midnight. The day comparison assumes a UTC offset of zero or less, as in the Americas: there local midnight of a day falls inside that same UTC day, so an ISO date is later than today's local midnight exactly when its day is later.
- Validation.ExpiryDay: rolling an ISO day of 29–31 into the next month follows the V8 engine; other engines may call such a date invalid. `ExpiryAcceptedIffLater` requires a year of at least 100 only for `YYYYMMDD` and `DD/MM/YYYY`: the `Date` constructor reads their years 0–99 as 1900–1999 (`TwoDigitYearIn1900s` states what they mean instead).
- Validation.ValidateQuantity: does not model the `Number.isInteger` test for fractional, NaN or infinite values, because quantities are integers in the model.
- Validation.ValidateGTIN14: counts lengths in characters, not UTF-16 code units.
- Validation.ValidateSKU and ValidateProduct: count lengths in characters, not UTF-16 code units.
- Validation.ValidateLabelList: judges every label of a batch against one `today`, whereas the source calls `new Date()` again for each label (src/app/_utils/validation.ts:59, reached from :132), so a batch running across midnight would judge later labels against the next day.
- Labels are typed records, so the model does not cover a missing or non-string field, which the source's `any` parameter would allow.
- LabelStorage.HeaderFields: states the header line through the eight names it splits into, not as one literal text.
- LabelStorage.NatToString: does not model the exponent form JavaScript uses from 10^21 upward.
- LabelStorage.LabelStore.GetSavedLabelSets: the stored entry cannot hold text that parses to something other than a list (`null`, an object, a number). For such text the source returns that value, and the next save or delete then throws at `.push` or `.filter` (src/app/_utils/labelStorage.ts:23,42). The model covers only entries that are absent, unparseable or a list of sets, which is all the application itself writes.
- LabelStorage.LabelStore.SaveLabelSet:
  - assumes `JSON.stringify` followed by `JSON.parse` gives the sets back unchanged;
  - does not model a failing `localStorage.setItem`, for example when the quota is exceeded;
  - does not model the server-side `typeof window` guard, because the store always exists in the model.
- `exportToJSON` is browser I/O and is not modelled.
- The `Blob`, object URL, anchor click and download file names of `exportToCSV` are browser I/O; only the CSV text is modelled.
- The `useDunLabelValidation` hook (src/app/_utils/validation.ts:82-120) is React state and effects and is not modelled.
- The React components, pages, CSV import and QR and barcode rendering are not part of this model.
