/**
 * The spreadsheet exporter of krishna.py (`create_excel_file`): a worksheet
 * whose cell table, keyed by (row, column) from 1, is filled in place with a
 * header row, one blank cell in row 2 and one row per record from row 3.
 */
module InventorySheet {
  import opened Wrappers
  import opened Ec2Listing
  import opened ReportPath

  /** A cell coordinate: (row, column), both counted from 1. */
  type Cell = (int, int)

  const SheetTitle: string := "EC2 Instances"
  /** The title a new workbook gives its active sheet. */
  const DefaultTitle: string := "Sheet"

  const Headers: seq<string> :=
    ["Name", "Instance ID", "Instance Type", "State", "Public IP",
     "Private IP", "Key Name", "Platform", "Architecture"]

  const HeaderRow: int := 1
  const BlankRow: int := 2
  const FirstDataRow: int := 3

  /** A worksheet: its title and the cells written so far. */
  class Sheet {
    var title: string
    var cells: map<Cell, FieldValue>

    constructor ()
      ensures title == DefaultTitle && cells == map[]
    {
      title := DefaultTitle;
      cells := map[];
    }

    /** Assigns `v` to cell (row, column); the library refuses coordinates below 1. */
    method SetCell(row: int, column: int, v: FieldValue)
      requires 1 <= row && 1 <= column
      modifies this
      ensures title == old(title)
      ensures cells == old(cells)[(row, column) := v]
    {
      cells := cells[(row, column) := v];
    }

    /**
     * Writes `vs` into columns 1 .. |vs| of `row`, left to right, one cell
     * at a time; every other cell keeps its value.
     */
    method WriteRow(row: int, vs: seq<FieldValue>)
      requires 1 <= row
      modifies this
      ensures title == old(title)
      ensures cells == old(cells) + RowMap(row, vs)
    {
      var j := 0;
      while j < |vs|
        invariant 0 <= j <= |vs|
        invariant title == old(title)
        invariant cells == old(cells) + RowMap(row, vs[..j])
      {
        RowMapSnoc(row, vs, j);
        UnionUpdate(old(cells), RowMap(row, vs[..j]), (row, j + 1), vs[j]);
        SetCell(row, j + 1, vs[j]);
        j := j + 1;
      }
      assert vs[..j] == vs;
    }
  }

  /** Writing into an empty table gives just what was written. */
  lemma EmptyUnion<K, V>(m: map<K, V>)
    ensures map[] + m == m
  {
  }

  /** Updating a union at one key updates its right operand. */
  lemma UnionUpdate<K, V>(a: map<K, V>, b: map<K, V>, k: K, v: V)
    ensures (a + b)[k := v] == a + b[k := v]
  {
  }

  /** Row `row` holding `vs` in columns 1 .. |vs|. */
  function RowMap(row: int, vs: seq<FieldValue>): map<Cell, FieldValue>
  {
    if vs == [] then map[] else RowMap(row, vs[..|vs| - 1])[(row, |vs|) := vs[|vs| - 1]]
  }

  /** The row written from `vs` has exactly the cells (row, 1) .. (row, |vs|), holding `vs` in order. */
  lemma {:induction false} RowMapSpec(row: int, vs: seq<FieldValue>)
    ensures forall c {:trigger c in RowMap(row, vs)} :: c in RowMap(row, vs) <==> c.0 == row && 1 <= c.1 <= |vs|
    ensures forall c {:trigger RowMap(row, vs)[c]} :: c in RowMap(row, vs) ==> RowMap(row, vs)[c] == vs[c.1 - 1]
  {
    if vs != [] {
      var p := vs[..|vs| - 1];
      RowMapSpec(row, p);
      assert forall c {:trigger c in RowMap(row, p)} :: c in RowMap(row, p) ==> p[c.1 - 1] == vs[c.1 - 1];
    }
  }

  /** A cell above row `row` is not written by it. */
  lemma NotInLaterRow(row: int, vs: seq<FieldValue>, c: Cell)
    requires c.0 < row
    ensures c !in RowMap(row, vs)
  {
    RowMapSpec(row, vs);
  }

  /** Cell (row, j) of the row written from `vs` holds vs[j - 1]. */
  lemma InRow(row: int, vs: seq<FieldValue>, c: Cell)
    requires c.0 == row && 1 <= c.1 <= |vs|
    ensures c in RowMap(row, vs) && RowMap(row, vs)[c] == vs[c.1 - 1]
  {
    RowMapSpec(row, vs);
  }

  /** The cells of the sheet once `data` is written: which coordinates exist. */
  predicate InLayout(n: nat, c: Cell)
  {
    1 <= c.1 <= FieldCount &&
    (c.0 == HeaderRow || (c.0 == BlankRow && c.1 == 1) || FirstDataRow <= c.0 < FirstDataRow + n)
  }

  /** Writing column j + 1 extends the row written so far by one cell. */
  lemma RowMapSnoc(row: int, vs: seq<FieldValue>, j: nat)
    requires j < |vs|
    ensures RowMap(row, vs[..j + 1]) == RowMap(row, vs[..j])[(row, j + 1) := vs[j]]
  {
    assert vs[..j + 1][..j] == vs[..j];
  }

  /** The strings of `ss` as cell values. */
  function Texts(ss: seq<string>): (vs: seq<FieldValue>)
    ensures |vs| == |ss|
    ensures forall j :: 0 <= j < |ss| ==> vs[j] == Str(ss[j])
  {
    if ss == [] then [] else [Str(ss[0])] + Texts(ss[1..])
  }

  /** The cells holding the header row and the blank cell, as the first two writes leave them. */
  function HeaderAndBlank(): map<Cell, FieldValue>
  {
    RowMap(HeaderRow, Texts(Headers))[(BlankRow, 1) := Str("")]
  }

  /**
   * The cell table after writing `data`: the header row and blank cell,
   * then each record's row below the rows of the records before it.
   */
  function Layout(data: seq<InstanceRecord>): map<Cell, FieldValue>
  {
    if data == [] then HeaderAndBlank()
    else
      var n := |data| - 1;
      Layout(data[..n]) + RowMap(FirstDataRow + n, Values(data[n]))
  }

  /** Before any record, the layout is what the header row and the blank cell leave. */
  lemma LayoutOfNone()
    ensures Layout([]) == (map[] + RowMap(HeaderRow, Texts(Headers)))[(BlankRow, 1) := Str("")]
  {
    EmptyUnion(RowMap(HeaderRow, Texts(Headers)));
  }

  /** Appending a record to the input appends its row to the layout. */
  lemma LayoutSnoc(data: seq<InstanceRecord>, i: nat)
    requires i < |data|
    ensures Layout(data[..i + 1]) == Layout(data[..i]) + RowMap(FirstDataRow + i, Values(data[i]))
  {
    assert data[..i + 1][..i] == data[..i];
  }

  /** The header row with the blank cell is the inventory sheet of no records. */
  lemma HeaderAndBlankSpec()
    ensures IsInventorySheet(HeaderAndBlank(), [])
  {
    HeaderAndBlankKeys();
    HeaderAndBlankValues();
  }

  /** The first two writes create row 1, columns 1 .. 9, and cell (2, 1). */
  lemma HeaderAndBlankKeys()
    ensures HasLayoutKeys(HeaderAndBlank(), 0)
  {
    RowMapSpec(HeaderRow, Texts(Headers));
  }

  /** Row 1 holds the headers in order and cell (2, 1) the empty string. */
  lemma HeaderAndBlankValues()
    ensures HasHeaders(HeaderAndBlank())
  {
    var m := HeaderAndBlank();
    var h := RowMap(HeaderRow, Texts(Headers));
    RowMapSpec(HeaderRow, Texts(Headers));
    forall c | c in m && c.0 == HeaderRow && 1 <= c.1 <= FieldCount ensures m[c] == Str(Headers[c.1 - 1]) {
      assert c in h;
    }
  }

  /** Exactly the cells of the sheet of `n` records exist. */
  ghost predicate HasLayoutKeys(m: map<Cell, FieldValue>, n: nat)
  {
    forall c {:trigger c in m} :: c in m <==> InLayout(n, c)
  }

  /** Row 1 holds the nine headers in order and cell (2, 1) the empty string. */
  ghost predicate HasHeaders(m: map<Cell, FieldValue>)
  {
    && (forall c {:trigger m[c]} :: c in m && c.0 == HeaderRow && 1 <= c.1 <= FieldCount ==> m[c] == Str(Headers[c.1 - 1]))
    && (BlankRow, 1) in m && m[(BlankRow, 1)] == Str("")
  }

  /** Row 3 + i, column j + 1 holds field j of record i. */
  ghost predicate HasData(m: map<Cell, FieldValue>, data: seq<InstanceRecord>)
  {
    forall c {:trigger m[c]} :: c in m && FirstDataRow <= c.0 < FirstDataRow + |data| && 1 <= c.1 <= FieldCount ==>
      m[c] == Values(data[c.0 - FirstDataRow])[c.1 - 1]
  }

  /**
   * What the sheet must look like after writing `data`: row 1 holds the nine
   * headers, row 2 only the blank cell (2, 1), row 3 + i column j + 1 holds
   * field j of record i, and no other cell exists.
   */
  ghost predicate IsInventorySheet(m: map<Cell, FieldValue>, data: seq<InstanceRecord>)
  {
    HasLayoutKeys(m, |data|) && HasHeaders(m) && HasData(m, data)
  }

  /** The cells written for `data` are exactly the inventory sheet of `data`. */
  lemma {:induction false} LayoutSpec(data: seq<InstanceRecord>)
    ensures IsInventorySheet(Layout(data), data)
  {
    if data == [] {
      HeaderAndBlankSpec();
    } else {
      var n := |data| - 1;
      LayoutSpec(data[..n]);
      AppendRecordRow(Layout(data[..n]), data[..n], data[n]);
      assert data[..n] + [data[n]] == data;
    }
  }

  /**
   * Writing the next record's row below a finished sheet gives the finished
   * sheet of the longer input: the header row, the blank cell and the earlier
   * rows are not touched.
   */
  lemma AppendRecordRow(m: map<Cell, FieldValue>, data: seq<InstanceRecord>, r: InstanceRecord)
    requires IsInventorySheet(m, data)
    ensures IsInventorySheet(m + RowMap(FirstDataRow + |data|, Values(r)), data + [r])
  {
    var vs := Values(r);
    AppendRowKeys(m, |data|, vs);
    AppendRowHeaders(m, FirstDataRow + |data|, vs);
    AppendRowData(m, data, r);
    assert |data + [r]| == |data| + 1;
  }

  /** The new row adds exactly the cells of row 3 + n. */
  lemma AppendRowKeys(m: map<Cell, FieldValue>, n: nat, vs: seq<FieldValue>)
    requires HasLayoutKeys(m, n) && |vs| == FieldCount
    ensures HasLayoutKeys(m + RowMap(FirstDataRow + n, vs), n + 1)
  {
    RowMapSpec(FirstDataRow + n, vs);
  }

  /** A row written below row 2 leaves the header row and the blank cell as they were. */
  lemma AppendRowHeaders(m: map<Cell, FieldValue>, row: int, vs: seq<FieldValue>)
    requires HasHeaders(m) && FirstDataRow <= row
    ensures HasHeaders(m + RowMap(row, vs))
  {
    RowMapSpec(row, vs);
    var m' := m + RowMap(row, vs);
    forall c | c in m' && c.0 == HeaderRow && 1 <= c.1 <= FieldCount ensures m'[c] == Str(Headers[c.1 - 1]) {
      assert c !in RowMap(row, vs);
    }
    assert (BlankRow, 1) !in RowMap(row, vs);
  }

  /** The new row holds the new record; the earlier records' rows keep their values. */
  lemma AppendRowData(m: map<Cell, FieldValue>, data: seq<InstanceRecord>, r: InstanceRecord)
    requires HasData(m, data)
    ensures HasData(m + RowMap(FirstDataRow + |data|, Values(r)), data + [r])
  {
    var m' := m + RowMap(FirstDataRow + |data|, Values(r));
    var data' := data + [r];
    forall c | c in m' && FirstDataRow <= c.0 < FirstDataRow + |data'| && 1 <= c.1 <= FieldCount
      ensures m'[c] == Values(data'[c.0 - FirstDataRow])[c.1 - 1]
    {
      if c.0 < FirstDataRow + |data| {
        EarlierDataCell(m, data, r, Values(r), c);
      } else {
        NewDataCell(m, data, r, c);
      }
    }
  }

  /** A data cell of an earlier record keeps its value when the next row is written. */
  lemma EarlierDataCell(m: map<Cell, FieldValue>, data: seq<InstanceRecord>, r: InstanceRecord, vs: seq<FieldValue>, c: Cell)
    requires HasData(m, data)
    requires c in m + RowMap(FirstDataRow + |data|, vs)
    requires FirstDataRow <= c.0 < FirstDataRow + |data| && 1 <= c.1 <= FieldCount
    ensures (m + RowMap(FirstDataRow + |data|, vs))[c] == Values((data + [r])[c.0 - FirstDataRow])[c.1 - 1]
  {
    NotInLaterRow(FirstDataRow + |data|, vs, c);
    assert c in m;
    assert (data + [r])[c.0 - FirstDataRow] == data[c.0 - FirstDataRow];
  }

  /** A cell of the new row holds the matching field of the new record. */
  lemma NewDataCell(m: map<Cell, FieldValue>, data: seq<InstanceRecord>, r: InstanceRecord, c: Cell)
    requires c.0 == FirstDataRow + |data| && 1 <= c.1 <= FieldCount
    ensures c in m + RowMap(FirstDataRow + |data|, Values(r))
    ensures (m + RowMap(FirstDataRow + |data|, Values(r)))[c] == Values((data + [r])[c.0 - FirstDataRow])[c.1 - 1]
  {
    InRow(FirstDataRow + |data|, Values(r), c);
    assert (data + [r])[c.0 - FirstDataRow] == r;
  }

  /** What reading cell `c` gives: its value, or `None` for a cell never written. */
  function CellAt(cells: map<Cell, FieldValue>, c: Cell): FieldValue
  {
    if c in cells then cells[c] else Null
  }

  /** The values of columns 1 .. width of row `row`. */
  function ReadRow(cells: map<Cell, FieldValue>, row: int, width: nat): (vs: seq<FieldValue>)
    ensures |vs| == width
    ensures forall j :: 0 <= j < width ==> vs[j] == CellAt(cells, (row, j + 1))
  {
    if width == 0 then [] else ReadRow(cells, row, width - 1) + [CellAt(cells, (row, width))]
  }

  /** Parses data rows 3 .. n + 2 of a sheet back into records. */
  function ReadRecords(cells: map<Cell, FieldValue>, n: nat): Option<seq<InstanceRecord>>
  {
    if n == 0 then Some([])
    else
      match ReadRecords(cells, n - 1)
      case None => None
      case Some(rs) =>
        match ParseValues(ReadRow(cells, FirstDataRow + (n - 1), FieldCount))
        case None => None
        case Some(r) => Some(rs + [r])
  }

  /** In the inventory sheet of `data`, cell (3 + i, j + 1) holds field j of record i. */
  lemma SheetDataCell(m: map<Cell, FieldValue>, data: seq<InstanceRecord>, i: nat, j: nat)
    requires IsInventorySheet(m, data)
    requires i < |data| && j < FieldCount
    ensures CellAt(m, (FirstDataRow + i, j + 1)) == Values(data[i])[j]
  {
    var c := (FirstDataRow + i, j + 1);
    assert InLayout(|data|, c);
    assert c in m;
    assert m[c] == Values(data[c.0 - FirstDataRow])[c.1 - 1];
    assert c.0 - FirstDataRow == i && c.1 - 1 == j;
  }

  /** Row 3 + i of the inventory sheet of `data` holds record i's values, column by column. */
  lemma SheetDataRow(m: map<Cell, FieldValue>, data: seq<InstanceRecord>, i: nat)
    requires IsInventorySheet(m, data)
    requires i < |data|
    ensures ReadRow(m, FirstDataRow + i, FieldCount) == Values(data[i])
  {
    forall j | 0 <= j < FieldCount
      ensures ReadRow(m, FirstDataRow + i, FieldCount)[j] == Values(data[i])[j]
    {
      SheetDataCell(m, data, i, j);
    }
  }

  /** Data rows that hold the values of records data[..k] read back as exactly those records. */
  lemma {:induction false} ReadRecordsOfRows(cells: map<Cell, FieldValue>, data: seq<InstanceRecord>, k: nat)
    requires k <= |data|
    requires forall i :: 0 <= i < k ==> ReadRow(cells, FirstDataRow + i, FieldCount) == Values(data[i])
    ensures ReadRecords(cells, k) == Some(data[..k])
  {
    if k > 0 {
      ReadRecordsOfRows(cells, data, k - 1);
      ParseValuesInverse(data[k - 1]);
      assert data[..k - 1] + [data[k - 1]] == data[..k];
    }
  }

  /** Parsing rows 3 .. N + 2 of any inventory sheet of `data` yields `data`. */
  lemma ReadBackSheet(m: map<Cell, FieldValue>, data: seq<InstanceRecord>)
    requires IsInventorySheet(m, data)
    ensures ReadRecords(m, |data|) == Some(data)
  {
    forall i | 0 <= i < |data|
      ensures ReadRow(m, FirstDataRow + i, FieldCount) == Values(data[i])
    {
      SheetDataRow(m, data, i);
    }
    ReadRecordsOfRows(m, data, |data|);
    assert data[..|data|] == data;
  }

  /** Round trip: parsing rows 3 .. N + 2 of the written sheet yields the input records, field for field. */
  lemma ReadBackLayout(data: seq<InstanceRecord>)
    ensures ReadRecords(Layout(data), |data|) == Some(data)
  {
    LayoutSpec(data);
    ReadBackSheet(Layout(data), data);
  }

  /**
   * Two instances, one tagged Name = "web-1" with a public address and one
   * untagged without: the sheet has rows 1 .. 4, the first data row is named
   * "web-1" with its address, the second "Unknown" with no address.
   */
  lemma TwoInstanceSheet(web: Instance, other: Instance)
    requires web.tags == Some([Tag("Name", "web-1")]) && web.publicIpAddress == Some("10.0.0.1")
    requires other.tags.None? && other.publicIpAddress.None?
    ensures var cells := Layout([InstanceInfo(web), InstanceInfo(other)]);
      && (forall c {:trigger c in cells} :: c in cells ==> 1 <= c.0 <= 4)
      && CellAt(cells, (3, 1)) == Str("web-1") && CellAt(cells, (3, 5)) == Str("10.0.0.1")
      && CellAt(cells, (4, 1)) == Str(UnknownName) && CellAt(cells, (4, 5)) == Null
  {
    var data := [InstanceInfo(web), InstanceInfo(other)];
    LayoutSpec(data);
    UntaggedIsUnknown(other);
    assert InstanceInfo(web).name == "web-1";
    TwoRecordSheet(Layout(data), data);
  }

  /** The cells of a two-record sheet that the scenario above inspects. */
  lemma TwoRecordSheet(m: map<Cell, FieldValue>, data: seq<InstanceRecord>)
    requires IsInventorySheet(m, data) && |data| == 2
    ensures forall c {:trigger c in m} :: c in m ==> 1 <= c.0 <= 4
    ensures CellAt(m, (3, 1)) == Str(data[0].name) && CellAt(m, (3, 5)) == OptionalField(data[0].publicIp)
    ensures CellAt(m, (4, 1)) == Str(data[1].name) && CellAt(m, (4, 5)) == OptionalField(data[1].publicIp)
  {
    SheetDataCell(m, data, 0, 0);
    SheetDataCell(m, data, 0, 4);
    SheetDataCell(m, data, 1, 0);
    SheetDataCell(m, data, 1, 4);
  }

  /**
   * Every written value sits under the header that names it: header j is the
   * key of the record's dict item j, and value j written to the row is that
   * item's value.
   */
  lemma HeadersNameFields(r: InstanceRecord)
    ensures |Items(r)| == |Headers| == |Values(r)|
    ensures forall j :: 0 <= j < |Headers| ==> Items(r)[j].0 == Headers[j] && Values(r)[j] == Items(r)[j].1
  {
  }

  /**
   * The start of `create_excel_file`: a new workbook's active sheet, renamed,
   * with the header row and the blank cell written.
   */
  method NewInventorySheet() returns (sheet: Sheet)
    ensures fresh(sheet)
    ensures sheet.title == SheetTitle
    ensures sheet.cells == Layout([])
  {
    sheet := new Sheet();
    sheet.title := SheetTitle;

    // the header row
    sheet.WriteRow(HeaderRow, Texts(Headers));

    // the blank row
    sheet.SetCell(BlankRow, 1, Str(""));
    LayoutOfNone();
  }

  /**
   * `create_excel_file`: builds the sheet for `data` and computes the path it
   * is saved to from the supplied clock reading (month name, year).
   */
  method CreateExcelFile(data: seq<InstanceRecord>, monthName: string, year: nat, flavour: PathFlavour)
    returns (sheet: Sheet, path: string)
    ensures fresh(sheet)
    ensures sheet.title == SheetTitle
    ensures sheet.cells == Layout(data)
    ensures path == OutputPath(monthName, year, flavour)
  {
    sheet := NewInventorySheet();
    assert data[..0] == [];

    // one row per record, from row 3
    var i := 0;
    while i < |data|
      invariant 0 <= i <= |data|
      invariant sheet.title == SheetTitle
      invariant sheet.cells == Layout(data[..i])
    {
      LayoutSnoc(data, i);
      sheet.WriteRow(FirstDataRow + i, Values(data[i]));
      i := i + 1;
    }
    assert data[..i] == data;

    path := OutputPath(monthName, year, flavour);
  }
}
