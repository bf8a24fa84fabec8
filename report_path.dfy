/**
 * Where create_excel_file saves the workbook: the file is named
 * `<MonthName>_INVENTORY_DATA_<Year>.xlsx` and joined under the fixed
 * destination directory `C:/IDI`. The clock reading (full month name and
 * year) and the operating system's path flavour are parameters.
 */
module ReportPath {
  import opened Wrappers

  const DestinationRoot: string := "C:/IDI"
  const Marker: string := "_INVENTORY_DATA_"
  const Extension: string := ".xlsx"

  /** Full month names as `%B` renders them in the English (C) locale; month m is at index m - 1. */
  const MonthNames: seq<string> :=
    ["January", "February", "March", "April", "May", "June", "July",
     "August", "September", "October", "November", "December"]

  /** The full month name of month `month` (1 for January). */
  function MonthName(month: int): (name: string)
    requires 1 <= month <= 12
    ensures name != [] && '_' !in name
  {
    var name := MonthNames[month - 1];
    assert '_' !in name by {
      assert forall m :: 0 <= m < 12 ==> '_' !in MonthNames[m];
    }
    name
  }

  function DigitChar(d: int): (c: char)
    requires 0 <= d < 10
    ensures '0' <= c <= '9'
  {
    "0123456789"[d]
  }

  function DigitValue(c: char): int {
    c as int - '0' as int
  }

  predicate IsDigits(s: string) {
    forall i :: 0 <= i < |s| ==> '0' <= s[i] <= '9'
  }

  /** `str(n)` for a non-negative integer: its decimal digits, no leading zero. */
  function DecimalString(n: nat): (s: string)
    ensures s != [] && IsDigits(s)
    ensures s[0] == '0' ==> n == 0
  {
    if n < 10 then [DigitChar(n)]
    else DecimalString(n / 10) + [DigitChar(n % 10)]
  }

  /** The number a string of decimal digits denotes. */
  function ParseDecimal(s: string): nat
    requires IsDigits(s)
  {
    if s == [] then 0
    else
      assert IsDigits(s[..|s| - 1]) by {
        assert forall i :: 0 <= i < |s| - 1 ==> s[..|s| - 1][i] == s[i];
      }
      10 * ParseDecimal(s[..|s| - 1]) + DigitValue(s[|s| - 1])
  }

  /** Reading `str(n)` back gives `n`. */
  lemma {:induction false} ParseDecimalString(n: nat)
    ensures ParseDecimal(DecimalString(n)) == n
  {
    var s := DecimalString(n);
    if n < 10 {
      assert s[..0] == [];
      assert "0123456789"[n] as int - '0' as int == n;
    } else {
      var prefix := DecimalString(n / 10);
      assert s[..|s| - 1] == prefix;
      ParseDecimalString(n / 10);
      var d := n % 10;
      assert DigitValue(s[|s| - 1]) == d by {
        assert "0123456789"[d] as int - '0' as int == d;
      }
    }
  }

  /** The file name for a month name and a year. */
  function FileName(monthName: string, year: nat): string
  {
    monthName + Marker + DecimalString(year) + Extension
  }

  /** The first index of `c` in `s`, or |s| when `c` does not occur. */
  function IndexOf(s: string, c: char): (k: nat)
    ensures k <= |s|
    ensures forall i :: 0 <= i < k ==> s[i] != c
    ensures k < |s| ==> s[k] == c
  {
    if s == [] || s[0] == c then 0 else 1 + IndexOf(s[1..], c)
  }

  /**
   * Reads a file name back as (month name, year): the month name is the text
   * before the first '_', and the year the digits between the marker and the
   * extension.
   */
  function ParseFileName(name: string): (r: Option<(string, nat)>)
  {
    if |name| < |Extension| || name[|name| - |Extension|..] != Extension then None
    else
      var body := name[..|name| - |Extension|];
      var k := IndexOf(body, '_');
      var rest := body[k..];
      if |rest| <= |Marker| || rest[..|Marker|] != Marker || !IsDigits(rest[|Marker|..]) then None
      else Some((body[..k], ParseDecimal(rest[|Marker|..])))
  }

  /** A file name built from a month name without '_' reads back as that month name and year. */
  lemma ParseFileNameInverse(monthName: string, year: nat)
    requires '_' !in monthName
    ensures ParseFileName(FileName(monthName, year)) == Some((monthName, year))
  {
    var digits := DecimalString(year);
    var name := FileName(monthName, year);
    var body := monthName + Marker + digits;
    assert name == body + Extension;
    assert name[..|name| - |Extension|] == body;
    assert name[|name| - |Extension|..] == Extension;
    var k := IndexOf(body, '_');
    assert body[|monthName|] == '_';
    assert k == |monthName| by {
      assert forall i :: 0 <= i < |monthName| ==> body[i] == monthName[i];
    }
    var rest := body[k..];
    assert rest == Marker + digits;
    assert rest[..|Marker|] == Marker;
    assert rest[|Marker|..] == digits;
    assert body[..k] == monthName;
    ParseDecimalString(year);
  }

  /** The month a full month name stands for (0 when it names none). */
  function MonthNumber(name: string): int
  {
    if |name| < 3 then 0
    else
      var key := name[..3];
      if key == "Jan" then 1 else if key == "Feb" then 2 else if key == "Mar" then 3
      else if key == "Apr" then 4 else if key == "May" then 5 else if key == "Jun" then 6
      else if key == "Jul" then 7 else if key == "Aug" then 8 else if key == "Sep" then 9
      else if key == "Oct" then 10 else if key == "Nov" then 11 else if key == "Dec" then 12
      else 0
  }

  lemma MonthNumberOfName(month: int)
    requires 1 <= month <= 12
    ensures MonthNumber(MonthName(month)) == month
  {
    var key := MonthNames[month - 1][..3];
    if month == 1 { assert key == "Jan"; }
    else if month == 2 { assert key == "Feb"; }
    else if month == 3 { assert key == "Mar"; }
    else if month == 4 { assert key == "Apr"; }
    else if month == 5 { assert key == "May"; }
    else if month == 6 { assert key == "Jun"; }
    else if month == 7 { assert key == "Jul"; }
    else if month == 8 { assert key == "Aug"; }
    else if month == 9 { assert key == "Sep"; }
    else if month == 10 { assert key == "Oct"; }
    else if month == 11 { assert key == "Nov"; }
    else { assert key == "Dec"; }
  }

  /** For a fixed clock reading the name is determined, and distinct readings give distinct names. */
  lemma FileNameInjective(month1: int, year1: nat, month2: int, year2: nat)
    requires 1 <= month1 <= 12 && 1 <= month2 <= 12
    ensures FileName(MonthName(month1), year1) == FileName(MonthName(month2), year2)
            <==> month1 == month2 && year1 == year2
  {
    if FileName(MonthName(month1), year1) == FileName(MonthName(month2), year2) {
      ParseFileNameInverse(MonthName(month1), year1);
      ParseFileNameInverse(MonthName(month2), year2);
      MonthNumberOfName(month1);
      MonthNumberOfName(month2);
    }
  }

  /** How `os.path.join` behaves: POSIX joins with '/', Windows with '\'. */
  datatype PathFlavour = Posix | Windows

  function Separator(flavour: PathFlavour): char
  {
    match flavour
    case Posix => '/'
    case Windows => '\\'
  }

  /**
   * `os.path.join(dir, name)` for a relative `name` without a drive: a
   * separator is inserted unless `dir` is empty or already ends in one (on
   * Windows both '/' and '\' count as separators), or, on Windows, `dir` is a
   * bare drive such as `C:`, which the name is then relative to.
   */
  function JoinPath(dir: string, name: string, flavour: PathFlavour): string
  {
    if dir == [] then name
    else if flavour == Windows && |dir| == 2 && dir[1] == ':' then dir + name
    else
      var last := dir[|dir| - 1];
      if last == '/' || last == Separator(flavour) then dir + name
      else dir + [Separator(flavour)] + name
  }

  /**
   * The joined path is `dir`, then at most one separator, then `name`; the
   * separator is left out exactly when `dir` is empty, already ends in a
   * separator, or is a bare Windows drive.
   */
  lemma JoinPathSpec(dir: string, name: string, flavour: PathFlavour)
    ensures var p := JoinPath(dir, name, flavour);
      && |dir| + |name| <= |p| <= |dir| + |name| + 1
      && p[..|dir|] == dir
      && p[|p| - |name|..] == name
      && (|p| == |dir| + |name| + 1 ==> p[|dir|] == Separator(flavour))
      && (|p| == |dir| + |name| <==>
            dir == [] || dir[|dir| - 1] == '/' || dir[|dir| - 1] == Separator(flavour) ||
            (flavour == Windows && |dir| == 2 && dir[1] == ':'))
  {
  }

  /** On Windows a bare drive takes the name without a separator: `C:` and `x` give `C:x`. */
  lemma JoinBareDrive()
    ensures JoinPath("C:", "x", Windows) == "C:x"
    ensures JoinPath("C:/", "x", Windows) == "C:/x"
    ensures JoinPath("C:/IDI", "x", Windows) == "C:/IDI\\x"
    ensures JoinPath("C:/IDI", "x", Posix) == "C:/IDI/x"
  {
  }

  /**
   * The full path the workbook is saved to: the destination directory, the
   * platform's separator, then the month/year file name.
   */
  function OutputPath(monthName: string, year: nat, flavour: PathFlavour): (path: string)
    ensures |path| == |DestinationRoot| + 1 + |FileName(monthName, year)|
    ensures path[..|DestinationRoot|] == DestinationRoot
    ensures path[|DestinationRoot|] == Separator(flavour)
    ensures path[|DestinationRoot| + 1..] == FileName(monthName, year)
  {
    JoinPath(DestinationRoot, FileName(monthName, year), flavour)
  }
}
