/**
 * Saved label sets and the CSV export. The browser's localStorage entry is
 * modelled as a field of a store object; the clock and the file download
 * are left to the caller.
 */
module LabelStorage {
  import opened Wrappers
  import opened Text
  import opened Seqs
  import opened Dun

  datatype Orientation = Portrait | Landscape

  /** A named, time-stamped collection of labels as it is kept in storage. */
  datatype SavedLabelSet = SavedLabelSet(
    id: string,
    name: string,
    labels: seq<DunLabel>,
    createdAt: string,
    orientation: Option<Orientation>)

  /**
   * What the storage entry holds: nothing (no entry, or an empty string),
   * text that does not parse, or the parsed list of sets.
   */
  datatype StoredEntry = Missing | Unreadable | Stored(sets: seq<SavedLabelSet>)

  /** The sets that remain once every set with the given id is removed. */
  function WithoutId(sets: seq<SavedLabelSet>, id: string): (r: seq<SavedLabelSet>)
    ensures |r| <= |sets|
    ensures forall i :: 0 <= i < |r| ==> r[i].id != id
  {
    FilterBound(sets, (s: SavedLabelSet) => s.id != id);
    Filter(sets, (s: SavedLabelSet) => s.id != id)
  }

  lemma {:induction false} FilterBound(sets: seq<SavedLabelSet>, keep: SavedLabelSet -> bool)
    ensures |Filter(sets, keep)| <= |sets|
    ensures forall i :: 0 <= i < |Filter(sets, keep)| ==> keep(Filter(sets, keep)[i])
  {
    if sets != [] {
      FilterBound(sets[..|sets| - 1], keep);
    }
  }

  /** Deleting keeps exactly the sets with a different id. */
  lemma WithoutIdMembers(sets: seq<SavedLabelSet>, id: string, s: SavedLabelSet)
    ensures s in WithoutId(sets, id) <==> s in sets && s.id != id
  {
    FilterMembers(sets, (x: SavedLabelSet) => x.id != id, s);
  }

  /** Deleting keeps the survivors in their original order. */
  lemma WithoutIdAppend(a: seq<SavedLabelSet>, b: seq<SavedLabelSet>, id: string)
    ensures WithoutId(a + b, id) == WithoutId(a, id) + WithoutId(b, id)
  {
    FilterAppend(a, b, (x: SavedLabelSet) => x.id != id);
  }

  /** Deleting an id nobody carries changes nothing. */
  lemma WithoutAbsentId(sets: seq<SavedLabelSet>, id: string)
    requires forall i :: 0 <= i < |sets| ==> sets[i].id != id
    ensures WithoutId(sets, id) == sets
  {
    FilterKeepsAll(sets, (x: SavedLabelSet) => x.id != id);
  }

  /** Deleting the same id twice is deleting it once. */
  lemma WithoutIdIdempotent(sets: seq<SavedLabelSet>, id: string)
    ensures WithoutId(WithoutId(sets, id), id) == WithoutId(sets, id)
  {
    FilterIdempotent(sets, (x: SavedLabelSet) => x.id != id);
  }

  /** Deleting the set just saved, under an id that was new, restores the list. */
  lemma DeleteUndoesSave(sets: seq<SavedLabelSet>, newSet: SavedLabelSet)
    requires forall i :: 0 <= i < |sets| ==> sets[i].id != newSet.id
    ensures WithoutId(sets + [newSet], newSet.id) == sets
  {
    WithoutIdAppend(sets, [newSet], newSet.id);
    WithoutAbsentId(sets, newSet.id);
    FilterSingle(newSet, (x: SavedLabelSet) => x.id != newSet.id);
  }

  /** The localStorage entry of the application, as a mutable store. */
  class LabelStore {
    var entry: StoredEntry

    /** A store with no entry yet. */
    constructor ()
      ensures entry == Missing
    {
      entry := Missing;
    }

    /** `getSavedLabelSets`: the stored list, or the empty list when nothing readable is stored. */
    function GetSavedLabelSets(): (r: seq<SavedLabelSet>)
      reads this
      ensures entry.Stored? ==> r == entry.sets
      ensures !entry.Stored? ==> r == []
    {
      match entry
      case Stored(sets) => sets
      case _ => []
    }

    /**
     * `saveLabelSet`: appends one new set, its id the decimal text of the
     * clock reading `now`, its orientation portrait unless one is given.
     */
    method SaveLabelSet(name: string, labels: seq<DunLabel>, orientation: Option<Orientation>, now: nat, createdAt: string)
      returns (newSet: SavedLabelSet)
      modifies this
      ensures newSet == SavedLabelSet(NatToString(now), name, labels, createdAt, Some(orientation.GetOr(Portrait)))
      ensures entry == Stored(old(GetSavedLabelSets()) + [newSet])
      ensures |GetSavedLabelSets()| == |old(GetSavedLabelSets())| + 1
      ensures GetSavedLabelSets()[..|GetSavedLabelSets()| - 1] == old(GetSavedLabelSets())
    {
      var savedSets := GetSavedLabelSets();
      newSet := SavedLabelSet(NatToString(now), name, labels, createdAt, Some(orientation.GetOr(Portrait)));
      savedSets := savedSets + [newSet];
      entry := Stored(savedSets);
    }

    /** `deleteLabelSet`: writes back the list without the sets carrying `id`. */
    method DeleteLabelSet(id: string)
      modifies this
      ensures entry == Stored(WithoutId(old(GetSavedLabelSets()), id))
    {
      var savedSets := GetSavedLabelSets();
      var filtered := WithoutId(savedSets, id);
      entry := Stored(filtered);
    }
  }

  // ---------------------------------------------------------------------
  // CSV export
  // ---------------------------------------------------------------------

  /** `Number.prototype.toString` of a non-negative integer. */
  function NatToString(n: nat): (s: string)
    ensures |s| >= 1 && AllDigits(s) && DecimalValue(s) == n
    ensures |s| > 1 ==> s[0] != '0'
  {
    if n < 10 then [DigitChar(n)]
    else
      var front := NatToString(n / 10);
      assert (front + [DigitChar(n % 10)])[..|front|] == front;
      front + [DigitChar(n % 10)]
  }

  /** `Number.prototype.toString` of an integer. */
  function IntToString(n: int): string {
    if n < 0 then "-" + NatToString(-n) else NatToString(n)
  }

  const CsvHeaders: seq<string> := ["sku", "gtin14", "product", "qtyPerBox", "boxSize", "weightKg", "lot", "expiry"]

  /** The eight cells of a label, in header order; a missing lot or expiry is empty. */
  function RowCells(l: DunLabel): (cells: seq<string>)
    ensures |cells| == |CsvHeaders|
  {
    [l.sku, l.gtin14, l.product, IntToString(l.qtyPerBox), l.boxSize, l.weightKg,
     l.lot.GetOr(""), l.expiry.GetOr("")]
  }

  /** A cell wrapped in double quotes, its text inserted as it is. */
  function Quote(cell: string): string {
    "\"" + cell + "\""
  }

  /** `parts.join(sep)`. */
  function Join(parts: seq<string>, sep: char): string {
    if parts == [] then ""
    else if |parts| == 1 then parts[0]
    else parts[0] + [sep] + Join(parts[1..], sep)
  }

  /** One data line: the quoted cells joined by commas. */
  function RowLine(l: DunLabel): string {
    Join(Map(RowCells(l), Quote), ',')
  }

  /** The CSV text `exportToCSV` offers for download: the header, then one line per label. */
  function CsvContent(labels: seq<DunLabel>): string {
    Join([Join(CsvHeaders, ',')] + Map(labels, RowLine), '\n')
  }

  /** `s.split(sep)`: the pieces between separators, never an empty list. */
  function Split(s: string, sep: char): (r: seq<string>)
    ensures |r| >= 1
  {
    if s == [] then [""]
    else if s[0] == sep then [""] + Split(s[1..], sep)
    else
      var rest := Split(s[1..], sep);
      [[s[0]] + rest[0]] + rest[1..]
  }

  lemma {:induction false} SplitNoSeparator(a: string, sep: char)
    requires sep !in a
    ensures Split(a, sep) == [a]
  {
    if a != [] {
      assert a[0] in a;
      SplitNoSeparator(a[1..], sep);
      assert [a[0]] + a[1..] == a;
    }
  }

  lemma {:induction false} SplitAtFirstSeparator(a: string, sep: char, b: string)
    requires sep !in a
    ensures Split(a + [sep] + b, sep) == [a] + Split(b, sep)
  {
    if a == [] {
      assert a + [sep] + b == [sep] + b;
    } else {
      assert a[0] in a;
      assert (a + [sep] + b)[0] == a[0];
      assert (a + [sep] + b)[1..] == a[1..] + [sep] + b;
      SplitAtFirstSeparator(a[1..], sep, b);
      assert [a[0]] + a[1..] == a;
    }
  }

  /** Joining and then splitting gives back the parts when none holds the separator. */
  lemma {:induction false} SplitJoin(parts: seq<string>, sep: char)
    requires |parts| >= 1
    requires forall i :: 0 <= i < |parts| ==> sep !in parts[i]
    ensures Split(Join(parts, sep), sep) == parts
  {
    if |parts| == 1 {
      SplitNoSeparator(parts[0], sep);
    } else {
      SplitJoin(parts[1..], sep);
      SplitAtFirstSeparator(parts[0], sep, Join(parts[1..], sep));
    }
  }

  lemma {:induction false} JoinAvoids(parts: seq<string>, sep: char, c: char)
    requires c != sep
    requires forall i :: 0 <= i < |parts| ==> c !in parts[i]
    ensures c !in Join(parts, sep)
  {
    if |parts| > 1 {
      JoinAvoids(parts[1..], sep, c);
    }
  }

  /** No cell of the label holds character c. */
  predicate CellsAvoid(l: DunLabel, c: char) {
    forall i :: 0 <= i < |RowCells(l)| ==> c !in RowCells(l)[i]
  }

  lemma RowLineAvoids(l: DunLabel, c: char)
    requires c != ',' && c != '"' && CellsAvoid(l, c)
    ensures c !in RowLine(l)
  {
    var quoted := Map(RowCells(l), Quote);
    forall i | 0 <= i < |quoted| ensures c !in quoted[i] {
      assert quoted[i] == "\"" + RowCells(l)[i] + "\"";
    }
    JoinAvoids(quoted, ',', c);
  }

  /** The header line names the eight fields, in order, once split at its commas. */
  lemma HeaderFields()
    ensures Split(Join(CsvHeaders, ','), ',') == CsvHeaders
    ensures '\n' !in Join(CsvHeaders, ',')
  {
    HeaderAvoids(CsvHeaders, ',');
    HeaderAvoids(CsvHeaders, '\n');
    SplitJoin(CsvHeaders, ',');
    JoinAvoids(CsvHeaders, ',', '\n');
  }

  lemma HeaderAvoids(h: seq<string>, c: char)
    requires h == CsvHeaders
    requires c == ',' || c == '\n'
    ensures forall i :: 0 <= i < |h| ==> c !in h[i]
  {
    forall i | 0 <= i < |h| ensures c !in h[i] {
      assert h[i] in CsvHeaders;
    }
  }

  lemma RowsHaveNoBreak(labels: seq<DunLabel>)
    requires forall i :: 0 <= i < |labels| ==> CellsAvoid(labels[i], '\n')
    ensures forall i :: 0 <= i < |Map(labels, RowLine)| ==> '\n' !in Map(labels, RowLine)[i]
  {
    forall i | 0 <= i < |labels| ensures '\n' !in Map(labels, RowLine)[i] {
      RowLineAvoids(labels[i], '\n');
    }
  }

  lemma SplitLines(header: string, rows: seq<string>)
    requires '\n' !in header
    requires forall i :: 0 <= i < |rows| ==> '\n' !in rows[i]
    ensures Split(Join([header] + rows, '\n'), '\n') == [header] + rows
  {
    var lines := [header] + rows;
    forall i | 0 <= i < |lines| ensures '\n' !in lines[i] {
      if i > 0 {
        assert lines[i] == rows[i - 1];
      }
    }
    SplitJoin([header] + rows, '\n');
  }

  /**
   * When no cell holds a line break, the CSV text splits into exactly
   * 1 + |labels| lines: the fixed header, then label i's line.
   */
  lemma CsvLines(labels: seq<DunLabel>)
    requires forall i :: 0 <= i < |labels| ==> CellsAvoid(labels[i], '\n')
    ensures Split(CsvContent(labels), '\n') == [Join(CsvHeaders, ',')] + Map(labels, RowLine)
    ensures |Split(CsvContent(labels), '\n')| == 1 + |labels|
  {
    HeaderFields();
    RowsHaveNoBreak(labels);
    SplitLines(Join(CsvHeaders, ','), Map(labels, RowLine));
  }

  /** The position of the first c in s, if any. */
  function FirstIndexOf(s: string, c: char): (r: Option<nat>)
    ensures r.Some? ==> r.value < |s| && s[r.value] == c && c !in s[..r.value]
    ensures r.None? ==> c !in s
  {
    if s == [] then None
    else if s[0] == c then Some(0)
    else match FirstIndexOf(s[1..], c)
      case None => None
      case Some(i) => assert s[..i + 1] == [s[0]] + s[1..][..i]; Some(i + 1)
  }

  /**
   * Reads a line of double-quoted cells separated by commas, taking each
   * cell up to the next double quote (no escape is recognised, as none is
   * written).
   */
  function ParseQuotedRow(s: string): Option<seq<string>>
    decreases |s|
  {
    if s == [] || s[0] != '"' then None
    else match FirstIndexOf(s[1..], '"')
      case None => None
      case Some(j) =>
        var cell, rest := s[1..1 + j], s[2 + j..];
        if rest == [] then Some([cell])
        else if rest[0] != ',' then None
        else match ParseQuotedRow(rest[1..])
          case None => None
          case Some(cells) => Some([cell] + cells)
  }

  lemma {:induction false} FirstQuoteClosesCell(c: string, t: string)
    requires '"' !in c
    ensures FirstIndexOf(c + "\"" + t, '"') == Some(|c|)
  {
    if c != [] {
      assert c[0] in c;
      assert (c + "\"" + t)[1..] == c[1..] + "\"" + t;
      FirstQuoteClosesCell(c[1..], t);
    }
  }

  lemma LastCell(c: string)
    requires '"' !in c
    ensures ParseQuotedRow(Quote(c)) == Some([c])
  {
    var q := Quote(c);
    assert q[1..] == c + "\"" + [];
    FirstQuoteClosesCell(c, []);
    assert q[1..1 + |c|] == c;
  }

  lemma CellThenMore(c: string, t: string)
    requires '"' !in c
    ensures ParseQuotedRow(Quote(c) + [','] + t) ==
      match ParseQuotedRow(t)
      case None => None
      case Some(cells) => Some([c] + cells)
  {
    var s := Quote(c) + [','] + t;
    assert s[1..] == c + "\"" + ([','] + t);
    FirstQuoteClosesCell(c, [','] + t);
    assert s[1..1 + |c|] == c;
    assert s[2 + |c|..] == [','] + t;
    assert (s[2 + |c|..])[1..] == t;
  }

  lemma {:induction false} ParseQuotedCells(cells: seq<string>)
    requires |cells| >= 1
    requires forall i :: 0 <= i < |cells| ==> '"' !in cells[i]
    ensures ParseQuotedRow(Join(Map(cells, Quote), ',')) == Some(cells)
  {
    var quoted := Map(cells, Quote);
    if |cells| == 1 {
      assert Join(quoted, ',') == Quote(cells[0]);
      assert '"' !in cells[0];
      LastCell(cells[0]);
      assert cells == [cells[0]];
    } else {
      assert quoted[1..] == Map(cells[1..], Quote);
      var tail := Join(Map(cells[1..], Quote), ',');
      assert Join(quoted, ',') == Quote(cells[0]) + [','] + tail;
      ParseQuotedCells(cells[1..]);
      CellThenMore(cells[0], tail);
      assert [cells[0]] + cells[1..] == cells;
    }
  }

  /**
   * Each data line holds the label's eight fields in header order, every one
   * quoted and inserted verbatim: read back, the line gives exactly those
   * cells, provided no cell holds a double quote.
   */
  lemma RowReadsBack(l: DunLabel)
    requires CellsAvoid(l, '"')
    ensures ParseQuotedRow(RowLine(l)) == Some(RowCells(l))
    ensures RowCells(l)[3] == IntToString(l.qtyPerBox)
    ensures RowCells(l)[6] == (if l.lot.Some? then l.lot.value else "")
    ensures RowCells(l)[7] == (if l.expiry.Some? then l.expiry.value else "")
  {
    ParseQuotedCells(RowCells(l));
  }

  /** The quantity cell is the quantity's decimal text, without leading zeros. */
  lemma QuantityCellReadsBack(l: DunLabel)
    requires l.qtyPerBox >= 0
    ensures AllDigits(RowCells(l)[3]) && DecimalValue(RowCells(l)[3]) == l.qtyPerBox
    ensures |RowCells(l)[3]| > 1 ==> RowCells(l)[3][0] != '0'
  {
  }
}
