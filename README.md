# EC2 inventory exporter, modelled in Dafny

`krishna.py` lists a region's EC2 instances and writes them to a spreadsheet.
This project models what the program computes and proves properties of it.

- `get_ec2_instances` flattens each listed instance into a nine-field record, in
  listing order. The record's Name is the value of the first tag keyed
  `"Name"`, or `"Unknown"` when there is no such tag. Any `Exception` discards
  every record built so far and the function returns `[]`.
- `create_excel_file` fills the active sheet of a new workbook, titled
  `"EC2 Instances"`, one cell at a time:
  - row 1 holds the nine headers;
  - cell (2, 1) holds `''`;
  - record i goes to row 3 + i, with its dict values in insertion order.
- The workbook is saved as `C:/IDI` joined with
  `<FullMonthName>_INVENTORY_DATA_<Year>.xlsx`.

Modules:

- `Wrappers`: the `Option` type.
- `Ec2Listing`: the listing outcome, the instance attributes that are read, name
  resolution, the record and its values, and `GetInstances`. `GetInstances` is a
  loop over the listing, as in the source.
- `InventorySheet`: the worksheet as a class `Sheet`. It has a `title` field and
  a `cells` map keyed by (row, column). `SetCell` and `WriteRow` update the map
  in place. Around them:
  - `Layout(data)` is the cell table the writes produce;
  - `IsInventorySheet` is the declarative description of a finished sheet;
  - the read-back functions parse data rows into records again.

  `CreateExcelFile` runs the writes in the source's order and is proved to
  produce `Layout(data)`.
- `ReportPath`: the file name and `os.path.join` under the destination
  directory. The clock reading (the full month name and the year) and the path
  flavour of the operating system are parameters.

A Python `None` written to a cell is `Null`. Strings are `Str(s)`. Reading a cell
that was never written also gives `Null`, as openpyxl does.

## Model

| member | source | states |
|---|---|---|
| Ec2Listing.FirstTagWithKey | krishna.py:20 | No tag is found exactly when no tag has the key. A found tag has the key, sits at some position k, and no tag before position k has the key: it is the first match. |
| Ec2Listing.ResolveNameSpec | krishna.py:19-21 | A missing tag list counts as empty. The name is "Unknown" when no tag is keyed "Name". Otherwise it is the value of the first tag keyed "Name". |
| Ec2Listing.ResolveName | krishna.py:19-21 | The name lookup with "Unknown" as fallback; its contract is stated by ResolveNameSpec and UntaggedIsUnknown. |
| Ec2Listing.UntaggedIsUnknown | krishna.py:19-21 | An instance with no tags, or with only tags under other keys, gets the record name "Unknown". |
| Ec2Listing.InstanceRow | krishna.py:24-37 | Column by column, the values of an instance's record are: the resolved name, then id, type, state name, public IP, private IP, key name, platform and architecture, copied verbatim. An optional cell is `None` exactly when the instance lacks that attribute. |
| Ec2Listing.InstanceInfo | krishna.py:27-37 | The dict literal built for one instance; its columns are stated by InstanceRow and HeadersNameFields. |
| Ec2Listing.Items | krishna.py:27-37 | The dict literal as (key, value) items in insertion order; HeadersNameFields ties its keys to the headers and its values to Values. |
| Ec2Listing.Values | krishna.py:61 | `row.values()` has exactly nine entries. |
| Ec2Listing.ParseValues | krishna.py:27-37 | A parsed record has exactly the nine given values, in key order. |
| Ec2Listing.OptionalOf | krishna.py:32-35 | Reading an optional cell back and writing it again gives the same cell value. |
| Ec2Listing.ParseValuesInverse | krishna.py:27-37 | Every record is recovered from its nine values: a row loses no information. |
| Ec2Listing.GetInstances | krishna.py:17-43 | A listing that completes gives exactly one record per instance, in listing order, each built from its instance. A listing that raises at any point gives `[]`, and the partial results are discarded. |
| ReportPath.MonthName | krishna.py:69 | `%B` gives a non-empty full month name that contains no '_'. |
| ReportPath.DecimalString | krishna.py:70 | The year is written in decimal digits, non-empty, with no leading zero unless the year is 0. |
| ReportPath.ParseDecimalString | krishna.py:70 | The year's digits read back as the year. |
| ReportPath.IndexOf | krishna.py:70 | Helper for reading a file name back: the first position of a character, or the length of the string when it does not occur. |
| ReportPath.FileName | krishna.py:70 | The f-string file name; its contract is stated by ParseFileNameInverse and FileNameInjective. |
| ReportPath.ParseFileNameInverse | krishna.py:70 | A file name built from a month name without '_' and a year reads back as that month name and that year. |
| ReportPath.MonthNumberOfName | krishna.py:69 | The full month names are pairwise distinguishable: each name maps back to its month. |
| ReportPath.FileNameInjective | krishna.py:69-70 | Two clock readings give the same file name if and only if they have the same month and the same year. |
| ReportPath.JoinPath | krishna.py:71 | `os.path.join` for a relative name without a drive, including the Windows bare-drive case (`C:` and `x` give `C:x`); its contract is stated by JoinPathSpec and, for the path written, by OutputPath. |
| ReportPath.JoinPathSpec | krishna.py:71 | The joined path is the directory, at most one separator, then the name. The separator is left out exactly when the directory is empty, already ends in a separator, or is a bare Windows drive. |
| ReportPath.JoinBareDrive | krishna.py:71 | Concrete joins: `C:` + `x` is `C:x` and `C:/` + `x` is `C:/x` on Windows; `C:/IDI` + `x` is `C:/IDI\x` on Windows and `C:/IDI/x` on POSIX. |
| ReportPath.OutputPath | krishna.py:70-71 | The path is `C:/IDI`, then the platform separator, then the file name, and nothing else. |
| InventorySheet.Sheet.constructor | krishna.py:46-47 | A new workbook's active sheet is titled "Sheet" and has no cells. |
| InventorySheet.Sheet.SetCell | krishna.py:54 | Assigning one cell sets exactly that cell and keeps the title and every other cell. |
| InventorySheet.Sheet.WriteRow | krishna.py:61-62 | The enumerate loop writes columns 1 .. n of the row with the given values and leaves every other cell and the title as they were. |
| InventorySheet.RowMap | krishna.py:61-62 | The cells one row write produces; its contract is stated by RowMapSpec, NotInLaterRow and InRow. |
| InventorySheet.RowMapSpec | krishna.py:61-62 | A written row has exactly the cells (row, 1) .. (row, n), and cell (row, j) holds value j - 1. |
| InventorySheet.NotInLaterRow | krishna.py:61-62 | A cell above a row is not written by that row. |
| InventorySheet.InRow | krishna.py:61-62 | Cell (row, j) of a written row holds value j - 1. |
| InventorySheet.RowMapSnoc | krishna.py:61-62 | Proof step for the loop in WriteRow: unfolds RowMap by one column, the cell the next iteration writes. |
| InventorySheet.Texts | krishna.py:50-54 | The headers become cell values one for one, in order. |
| InventorySheet.HeaderAndBlank | krishna.py:53-57 | The cells after the header row and the blank cell are written; its contract is stated by HeaderAndBlankSpec. |
| InventorySheet.Layout | krishna.py:50-62 | The cell table after all writes; its contract is stated by LayoutSpec, LayoutSnoc and ReadBackLayout, and CreateExcelFile is proved to produce it. |
| InventorySheet.LayoutOfNone | krishna.py:53-57 | Proof step for NewInventorySheet: unfolds Layout of no records into the header-row write followed by the blank-cell write on an empty table. |
| InventorySheet.LayoutSnoc | krishna.py:59-62 | Proof step for the loop in CreateExcelFile: unfolds Layout by one record, whose row is added to the layout of the records before it. |
| InventorySheet.HeaderAndBlankSpec | krishna.py:50-57 | With no records the sheet is complete: the header row and cell (2, 1) are its only cells. |
| InventorySheet.HeaderAndBlankKeys | krishna.py:53-57 | The first two write steps create exactly row 1, columns 1 .. 9, and cell (2, 1). |
| InventorySheet.HeaderAndBlankValues | krishna.py:50-57 | Cell (1, j) holds header j - 1, and cell (2, 1) holds ''. |
| InventorySheet.LayoutSpec | krishna.py:50-62 | The sheet of N records has only the cells of rows 1 .. N + 2 described here: row 1 holds the nine headers, row 2 holds only (2, 1) = '', and cell (3 + i, j + 1) holds field j of record i. |
| InventorySheet.AppendRecordRow | krishna.py:59-62 | Writing the next record's row keeps the sheet a complete inventory sheet of the longer input. |
| InventorySheet.AppendRowKeys | krishna.py:59-62 | The row of record N adds exactly the cells of row 3 + N, columns 1 .. 9. |
| InventorySheet.AppendRowHeaders | krishna.py:59-62 | A data row never touches the header row or the blank cell. |
| InventorySheet.AppendRowData | krishna.py:59-62 | After the new row is written, every data cell holds the matching field of its record. |
| InventorySheet.EarlierDataCell | krishna.py:59-62 | The cells of earlier records keep their values when a later row is written. |
| InventorySheet.NewDataCell | krishna.py:59-62 | Cell j of the new row holds field j - 1 of the new record. |
| InventorySheet.ReadRow | krishna.py:61-62 | Reading columns 1 .. w of a row gives w values, the value of cell (row, j) at position j - 1. |
| InventorySheet.SheetDataCell | krishna.py:59-62 | In a complete sheet, cell (3 + i, j + 1) reads as field j of record i. |
| InventorySheet.SheetDataRow | krishna.py:59-62 | In a complete sheet, row 3 + i reads as the values of record i. |
| InventorySheet.ReadRecordsOfRows | krishna.py:59-62 | Rows that hold the values of the first k records parse back as exactly those records. |
| InventorySheet.ReadBackSheet | krishna.py:59-62 | Parsing rows 3 .. N + 2 of any complete sheet of the records gives those records back, in order. |
| InventorySheet.ReadBackLayout | krishna.py:59-62 | Round trip: the written data rows parse back as the input records. |
| InventorySheet.TwoInstanceSheet | krishna.py:19-62 | Two instances, one tagged Name = "web-1" with a public IP and one untagged without one, produce a sheet of rows 1 .. 4. Row 3 is "web-1" with its IP. Row 4 is "Unknown" with an empty public-IP cell. |
| InventorySheet.TwoRecordSheet | krishna.py:59-62 | A complete two-record sheet has no cell below row 4, and its rows 3 and 4 hold the two records' names and public IPs. |
| InventorySheet.HeadersNameFields | krishna.py:27-61 | Header j is the key of dict item j of every record, and value j of `row.values()` is the value of that item, so each written value sits under the header that names it. |
| InventorySheet.NewInventorySheet | krishna.py:46-57 | A new sheet, titled "EC2 Instances", holding the header row and the blank cell and nothing else. |
| InventorySheet.CreateExcelFile | krishna.py:45-71 | Writing cell by cell gives a fresh sheet titled "EC2 Instances" whose cells are exactly the layout of the data. The path returned is the one the workbook is saved to. |

## Left out

- Session and query (krishna.py:8-15): credentials, the region and the network call to the cloud provider are not modelled. The listing's outcome is a parameter, `Listing`, holding the instances in provider order.
- Server-side filter (krishna.py:15): the provider applies the state filter for "running" and "stopped". The model does not check instance states; it takes the listing as delivered.
- Exceptions (krishna.py:41-43): every `Exception` raised in the `try` block is one outcome, `Interrupted`. That covers authentication, network and permission errors, and a `KeyError` from a malformed tag or state, because those attributes are typed fields here. The message printed at krishna.py:42 is console output and is not modelled. `KeyboardInterrupt` and `SystemExit` are not caught by the handler and are not modelled either.
- Workbook object model (krishna.py:46-48): reduced to the active sheet's title and its cell values. Styles, other sheets and cell objects are not modelled.
- Sheet.SetCell: does not model the checks openpyxl's value setter makes. The setter cuts strings to 32,767 characters and raises `IllegalCharacterError` on control characters such as `'\x07'`, which a Name tag value may contain. `create_excel_file` does not catch that error, so such a run stops and writes no file. The model stores every string unchanged: `CreateExcelFile` always produces `Layout(data)`, and the `ReadBackLayout` round trip holds only for values the setter accepts unchanged.
- Directory creation (krishna.py:65-66): `os.path.exists` and `os.makedirs` are file system effects and are not modelled.
- Save (krishna.py:72): `workbook.save` is file I/O and is not modelled. `CreateExcelFile` returns the sheet and the path instead of writing the file.
- Clock (krishna.py:69-70): `datetime.now()` is replaced by explicit parameters for the month name and the year. The source reads the clock twice, and the two readings can straddle a month or year boundary; the model takes one reading.
- Locale (krishna.py:69): the month name `%B` gives depends on the locale. `MonthName` gives the English names.
- Path joining (krishna.py:71): `os.path.join` is modelled for a relative name without a drive letter, which is what `create_excel_file` passes. Its cases for absolute or drive-qualified names, and for UNC share directories (`\\server\share`), are not modelled. Bare drive directories such as `C:` are modelled.
- Destination directory (krishna.py:65-71): the code hard-codes `C:/IDI`, and so does the model: the destination directory is not configurable.
- Success message and entry point (krishna.py:73-81): `print`, `input()` and the `__main__` block are console I/O and are not modelled.
- Attribute types: the instance id, type, state name and architecture are modelled as always-present strings. Public and private IP, key name and platform are optional, as the source treats them.
- `ParseValues`, `OptionalOf`, `CellAt`, `ReadRow`, `ReadRecords`, `ParseDecimal`, `IndexOf`, `ParseFileName` and `MonthNumber` are not in the source. They are read-back partners that state what the written sheet and file name contain.
