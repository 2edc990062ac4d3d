/** The CSV label table of headers/File.h: ReadCSVFile, which splits every
    line of a `.csv` file on ',' the way std::getline does, and CSVFile, whose
    accessors are bounds-checked and convert cells with ConvertFromString.
    The file is given as its sequence of lines; existence, file type and the
    success of opening it are given as flags. */
module Csv {
  import opened Wrappers
  import Paths

  datatype CsvError =
    | PathNotFound
    | NotARegularFile
    | NotCsvExtension(ext: string)
    | OpenFailed
    | ColumnCountMismatch
    | ColumnOutOfBounds
    | RowOutOfBounds
    | InvalidConversion

  /* ---------------------------------------------------------------- splitting */

  /** The pieces of `s` between commas, empty ones included; a string with n
      commas has n + 1 pieces. Defined from the right so that it follows a
      left-to-right scan. */
  function Pieces(s: string): (p: seq<string>)
    ensures |p| >= 1
  {
    if s == [] then [[]] else PiecesStep(Pieces(s[..|s| - 1]), s[|s| - 1])
  }

  /** One character of the scan: a comma starts a new piece, anything else
      extends the last one. */
  function PiecesStep(p: seq<string>, c: char): (q: seq<string>)
    requires |p| >= 1
    ensures |q| >= 1
  {
    if c == ',' then p + [[]] else p[..|p| - 1] + [p[|p| - 1] + [c]]
  }

  /** The fields std::getline(ss, field, ',') extracts from one line: the
      pieces, except that a final empty piece is never extracted. */
  function Fields(line: string): seq<string>
  {
    var p := Pieces(line);
    if p[|p| - 1] == [] then p[..|p| - 1] else p
  }

  /** Pieces glued back together with ',' between them. */
  function Join(ps: seq<string>): string
    requires |ps| >= 1
  {
    if |ps| == 1 then ps[0] else Join(ps[..|ps| - 1]) + [','] + ps[|ps| - 1]
  }

  predicate NoComma(ps: seq<string>)
  {
    forall i :: 0 <= i < |ps| ==> ',' !in ps[i]
  }

  lemma JoinStep(p: seq<string>, c: char)
    requires |p| >= 1
    ensures Join(PiecesStep(p, c)) == Join(p) + [c]
  {
    if c != ',' && |p| > 1 {
      var q := PiecesStep(p, c);
      assert q[..|q| - 1] == p[..|p| - 1];
    }
  }

  /** Splitting loses nothing: the commas and pieces rebuild the line. */
  lemma {:induction false} JoinPieces(s: string)
    ensures Join(Pieces(s)) == s
  {
    if s != [] {
      var init, c := s[..|s| - 1], s[|s| - 1];
      JoinPieces(init);
      JoinStep(Pieces(init), c);
      assert Pieces(s) == PiecesStep(Pieces(init), c);
      assert init + [c] == s;
    }
  }

  /** No piece contains the separator. */
  lemma {:induction false} PiecesHaveNoComma(s: string)
    ensures NoComma(Pieces(s))
  {
    if s != [] {
      PiecesHaveNoComma(s[..|s| - 1]);
    }
  }

  lemma {:induction false} PiecesWithoutComma(x: string)
    requires ',' !in x
    ensures Pieces(x) == [x]
  {
    if x != [] {
      PiecesWithoutComma(x[..|x| - 1]);
      assert x[..|x| - 1] + [x[|x| - 1]] == x;
    }
  }

  lemma {:induction false} PiecesAfterComma(a: string, x: string)
    requires ',' !in x
    ensures Pieces(a + [','] + x) == Pieces(a) + [x]
  {
    var s := a + [','] + x;
    if x == [] {
      assert s[..|s| - 1] == a;
    } else {
      assert s[..|s| - 1] == a + [','] + x[..|x| - 1];
      PiecesAfterComma(a, x[..|x| - 1]);
      assert x[..|x| - 1] + [x[|x| - 1]] == x;
    }
  }

  /** Joining comma-free pieces and splitting again gives the pieces back. */
  lemma {:induction false} PiecesOfJoin(ps: seq<string>)
    requires |ps| >= 1 && NoComma(ps)
    ensures Pieces(Join(ps)) == ps
  {
    if |ps| == 1 {
      PiecesWithoutComma(ps[0]);
    } else {
      PiecesOfJoin(ps[..|ps| - 1]);
      PiecesAfterComma(Join(ps[..|ps| - 1]), ps[|ps| - 1]);
    }
  }

  /** Interior empty fields are kept, and a trailing comma adds no field. */
  lemma FieldsOfJoin(ps: seq<string>)
    requires |ps| >= 1 && NoComma(ps) && ps[|ps| - 1] != []
    ensures Fields(Join(ps)) == ps
    ensures Fields(Join(ps) + [',']) == ps
  {
    PiecesOfJoin(ps);
    PiecesAfterComma(Join(ps), []);
    assert Join(ps) + [','] + [] == Join(ps) + [','];
  }

  /** Only the empty line has no fields. */
  lemma FieldsEmpty(line: string)
    ensures Fields(line) == [] <==> line == []
  {
    if line != [] && Fields(line) == [] {
      JoinPieces(line);
    }
  }

  /** The inner std::getline loop of ReadCSVFile over one line. */
  method SplitLine(line: string) returns (fields: seq<string>)
    ensures fields == Fields(line)
  {
    fields := [];
    var field := "";
    var i := 0;
    while i < |line|
      invariant 0 <= i <= |line|
      invariant fields + [field] == Pieces(line[..i])
    {
      assert line[..i + 1][..i] == line[..i];
      if line[i] == ',' {
        fields := fields + [field];
        field := "";
      } else {
        field := field + [line[i]];
      }
      i := i + 1;
    }
    assert line[..i] == line;
    if field != "" {
      fields := fields + [field];
    }
  }

  /* ---------------------------------------------------------------- the table */

  datatype CsvFile = CsvFile(rows: seq<seq<string>>)

  predicate Rectangular(rows: seq<seq<string>>)
  {
    forall i :: 0 <= i < |rows| ==> |rows[i]| == |rows[0]|
  }

  /** A table as ReadCSVFile builds it: every row as wide as the first. */
  type Table = t: CsvFile | Rectangular(t.rows) witness CsvFile([])

  /** ReadCSVFile's extension test: the lower-cased extension is ".csv". */
  predicate IsCsvPath(path: string)
  {
    Paths.ToLower(Paths.Extension(path)) == ".csv"
  }

  predicate SameWidth(lines: seq<string>)
  {
    forall i :: 0 <= i < |lines| ==> |Fields(lines[i])| == |Fields(lines[0])|
  }

  /** One row of fields per line. */
  function ParseRows(lines: seq<string>): (rows: seq<seq<string>>)
    ensures |rows| == |lines|
  {
    if lines == [] then [] else ParseRows(lines[..|lines| - 1]) + [Fields(lines[|lines| - 1])]
  }

  lemma {:induction false} ParseRowsAt(lines: seq<string>, j: nat)
    requires j < |lines|
    ensures ParseRows(lines)[j] == Fields(lines[j])
  {
    if j < |lines| - 1 {
      ParseRowsAt(lines[..|lines| - 1], j);
    }
  }

  /** ReadCSVFile: the checks on the path in the source's order, then the rows. */
  method ReadCsvFile(path: string, pathExists: bool, isRegularFile: bool, isOpen: bool, lines: seq<string>)
    returns (r: Result<Table, CsvError>)
    ensures !pathExists ==> r == Failure(PathNotFound)
    ensures pathExists && !isRegularFile ==> r == Failure(NotARegularFile)
    ensures pathExists && isRegularFile && !IsCsvPath(path) ==>
              r == Failure(NotCsvExtension(Paths.ToLower(Paths.Extension(path))))
    ensures pathExists && isRegularFile && IsCsvPath(path) && !isOpen ==> r == Failure(OpenFailed)
    ensures pathExists && isRegularFile && IsCsvPath(path) && isOpen ==>
              (r.Success? <==> SameWidth(lines)) &&
              (r.Failure? ==> r.error == ColumnCountMismatch)
    ensures r.Success? ==>
              |r.value.rows| == |lines| &&
              forall i :: 0 <= i < |lines| ==> r.value.rows[i] == Fields(lines[i])
  {
    if !pathExists {
      return Failure(PathNotFound);
    }
    if !isRegularFile {
      return Failure(NotARegularFile);
    }
    var ext := Paths.ToLower(Paths.Extension(path));
    if ext != ".csv" {
      return Failure(NotCsvExtension(ext));
    }
    if !isOpen {
      return Failure(OpenFailed);
    }
    r := ReadRows(lines);
  }

  /** The outer std::getline loop of ReadCSVFile: one row per line, failing
      at the first row whose width differs from the first row's. */
  method ReadRows(lines: seq<string>) returns (r: Result<Table, CsvError>)
    ensures r.Success? <==> SameWidth(lines)
    ensures r.Failure? ==> r.error == ColumnCountMismatch
    ensures r.Success? ==>
              |r.value.rows| == |lines| &&
              forall i :: 0 <= i < |lines| ==> r.value.rows[i] == Fields(lines[i])
  {
    var data: seq<seq<string>> := [];
    var i := 0;
    while i < |lines|
      invariant 0 <= i <= |lines|
      invariant data == ParseRows(lines[..i])
      invariant Rectangular(data)
    {
      var row := SplitLine(lines[i]);
      assert lines[..i + 1][..i] == lines[..i];
      data := data + [row];
      ParseRowsAt(lines[..i + 1], 0);
      if |data[0]| != |row| {
        ParseRowsAt(lines[..i + 1], i);
        assert !SameWidth(lines) by {
          assert |Fields(lines[i])| != |Fields(lines[0])|;
        }
        return Failure(ColumnCountMismatch);
      }
      i := i + 1;
    }
    assert lines[..i] == lines;
    forall j | 0 <= j < |lines| ensures data[j] == Fields(lines[j]) {
      ParseRowsAt(lines, j);
    }
    assert SameWidth(lines) by {
      forall j | 0 <= j < |lines| ensures |Fields(lines[j])| == |Fields(lines[0])| {
        assert |data[j]| == |data[0]|;
      }
    }
    return Success(CsvFile(data));
  }

  /* ---------------------------------------------------------------- conversion */

  /** The target type T of ConvertFromString<T>: std::string, or an integer
      type of the given signedness and width. */
  datatype CellType = Text | Integer(signed: bool, bits: nat)

  datatype Value = Str(s: string) | Int(i: int)

  function Pow2(n: nat): (r: nat)
    ensures r >= 1
  {
    if n == 0 then 1 else 2 * Pow2(n - 1)
  }

  predicate InIntRange(i: int, signed: bool, bits: nat)
  {
    if signed then bits >= 1 && -(Pow2(bits - 1) as int) <= i < Pow2(bits - 1)
    else 0 <= i < Pow2(bits)
  }

  predicate IsDigit(c: char)
  {
    '0' <= c <= '9'
  }

  /** Length of the run of decimal digits that starts `s`. */
  function DigitRun(s: string): (n: nat)
    ensures n <= |s|
    ensures forall k :: 0 <= k < n ==> IsDigit(s[k])
    ensures n < |s| ==> !IsDigit(s[n])
  {
    if s == [] || !IsDigit(s[0]) then 0 else 1 + DigitRun(s[1..])
  }

  /** Value of a string of decimal digits, most significant first. */
  function DigitsValue(ds: string): nat
  {
    if ds == [] then 0
    else 10 * DigitsValue(ds[..|ds| - 1]) + (ds[|ds| - 1] as int - '0' as int) % 10
  }

  /** std::from_chars for an integer type in base 10: an optional '-' (signed
      types only), then the longest run of digits. No digits, or a value the
      type cannot hold, is an error; characters after the digits are ignored. */
  function FromChars(s: string, signed: bool, bits: nat): (r: Result<int, CsvError>)
    ensures r.Success? ==> InIntRange(r.value, signed, bits)
    ensures r.Failure? ==> r.error == InvalidConversion
  {
    var negative := signed && |s| > 0 && s[0] == '-';
    var rest := if negative then s[1..] else s;
    var n := DigitRun(rest);
    if n == 0 then Failure(InvalidConversion)
    else
      var v := if negative then -(DigitsValue(rest[..n]) as int) else DigitsValue(rest[..n]);
      if InIntRange(v, signed, bits) then Success(v) else Failure(InvalidConversion)
  }

  /** CSVFile::ConvertFromString for std::string and integer targets. */
  function ConvertFromString(s: string, ty: CellType): (r: Result<Value, CsvError>)
    ensures ty.Text? ==> r == Success(Str(s))
    ensures ty.Integer? && r.Success? ==> r.value.Int? && InIntRange(r.value.i, ty.signed, ty.bits)
    ensures r.Failure? ==> ty.Integer? && r.error == InvalidConversion
  {
    match ty
    case Text => Success(Str(s))
    case Integer(signed, bits) =>
      match FromChars(s, signed, bits)
      case Success(v) => Success(Int(v))
      case Failure(e) => Failure(e)
  }

  /** Shortest decimal spelling of a natural number. */
  function Decimal(n: nat): string
  {
    if n < 10 then [('0' as int + n) as char]
    else Decimal(n / 10) + [('0' as int + n % 10) as char]
  }

  /** How an integer is written: a '-' for negative values, then its digits. */
  function Show(i: int): string
  {
    if i < 0 then ['-'] + Decimal(-i) else Decimal(i)
  }

  lemma {:induction false} DecimalDigits(n: nat)
    ensures |Decimal(n)| >= 1
    ensures forall k :: 0 <= k < |Decimal(n)| ==> IsDigit(Decimal(n)[k])
    ensures DigitsValue(Decimal(n)) == n
  {
    if n >= 10 {
      DecimalDigits(n / 10);
      assert Decimal(n)[..|Decimal(n)| - 1] == Decimal(n / 10);
    }
  }

  lemma {:induction false} DigitRunPrefix(ds: string, rest: string)
    requires forall k :: 0 <= k < |ds| ==> IsDigit(ds[k])
    requires rest == [] || !IsDigit(rest[0])
    ensures DigitRun(ds + rest) == |ds|
  {
    if ds != [] {
      assert (ds + rest)[1..] == ds[1..] + rest;
      DigitRunPrefix(ds[1..], rest);
    }
  }

  /** A run of digits, then a non-digit: the digits' decimal value when the
      type can hold it, and otherwise InvalidConversion. */
  lemma FromCharsRun(ds: string, rest: string, signed: bool, bits: nat)
    requires |ds| >= 1 && forall k :: 0 <= k < |ds| ==> IsDigit(ds[k])
    requires rest == [] || !IsDigit(rest[0])
    ensures FromChars(ds + rest, signed, bits)
              == if InIntRange(DigitsValue(ds), signed, bits) then Success(DigitsValue(ds) as int)
                 else Failure(InvalidConversion)
  {
    DigitRunPrefix(ds, rest);
    assert (ds + rest)[..|ds|] == ds;
    assert (ds + rest)[0] == ds[0];
  }

  /** A '-', a run of digits, then a non-digit, for a signed type: the
      negated value when the type can hold it, and otherwise InvalidConversion. */
  lemma FromCharsMinusRun(ds: string, rest: string, bits: nat)
    requires |ds| >= 1 && forall k :: 0 <= k < |ds| ==> IsDigit(ds[k])
    requires rest == [] || !IsDigit(rest[0])
    ensures FromChars(['-'] + (ds + rest), true, bits)
              == if InIntRange(-(DigitsValue(ds) as int), true, bits) then Success(-(DigitsValue(ds) as int))
                 else Failure(InvalidConversion)
  {
    DigitRunPrefix(ds, rest);
    assert (['-'] + (ds + rest))[1..] == ds + rest;
    assert (ds + rest)[..|ds|] == ds;
  }

  /** Reading back a written integer gives the integer, whatever non-digit
      text follows it, as long as the target type can hold it. */
  lemma FromCharsShow(i: int, rest: string, signed: bool, bits: nat)
    requires InIntRange(i, signed, bits)
    requires rest == [] || !IsDigit(rest[0])
    ensures FromChars(Show(i) + rest, signed, bits) == Success(i)
  {
    if i < 0 {
      DecimalDigits(-i);
      assert Show(i) + rest == ['-'] + (Decimal(-i) + rest);
      FromCharsMinusRun(Decimal(-i), rest, bits);
    } else {
      DecimalDigits(i);
      FromCharsRun(Decimal(i), rest, signed, bits);
    }
  }

  /** A written integer the target type cannot hold is rejected, whatever
      non-digit text follows it. */
  lemma FromCharsOutOfRange(i: int, rest: string, signed: bool, bits: nat)
    requires !InIntRange(i, signed, bits)
    requires rest == [] || !IsDigit(rest[0])
    ensures FromChars(Show(i) + rest, signed, bits) == Failure(InvalidConversion)
  {
    if i < 0 {
      DecimalDigits(-i);
      assert Show(i) + rest == ['-'] + (Decimal(-i) + rest);
      if signed {
        FromCharsMinusRun(Decimal(-i), rest, bits);
      } else {
        FromCharsUnsignedMinus(Decimal(-i) + rest, bits);
      }
    } else {
      DecimalDigits(i);
      FromCharsRun(Decimal(i), rest, signed, bits);
    }
  }

  /** Text that does not start with a digit, or with a '-' and a digit for a
      signed type, is rejected. */
  lemma FromCharsNoDigits(s: string, signed: bool, bits: nat)
    requires s == [] || !IsDigit(s[0])
    requires signed && |s| >= 2 && s[0] == '-' ==> !IsDigit(s[1])
    ensures FromChars(s, signed, bits) == Failure(InvalidConversion)
  {
    if signed && |s| >= 1 && s[0] == '-' {
      assert |s[1..]| >= 1 ==> s[1..][0] == s[1];
    }
  }

  /** An unsigned target rejects a leading '-'. */
  lemma FromCharsUnsignedMinus(s: string, bits: nat)
    ensures FromChars(['-'] + s, false, bits) == Failure(InvalidConversion)
  {
  }

  /* ---------------------------------------------------------------- accessors */

  /** std::transform of ConvertFromString over cells, stopping at the first
      cell that cannot be converted. */
  function ConvertAll(cells: seq<string>, ty: CellType): (r: Result<seq<Value>, CsvError>)
    ensures r.Success? <==> forall k :: 0 <= k < |cells| ==> ConvertFromString(cells[k], ty).Success?
    ensures r.Success? ==>
              |r.value| == |cells| &&
              forall k :: 0 <= k < |cells| ==> ConvertFromString(cells[k], ty) == Success(r.value[k])
    ensures r.Failure? ==> r.error == InvalidConversion
  {
    if cells == [] then Success([])
    else
      match ConvertFromString(cells[0], ty)
      case Failure(e) => Failure(e)
      case Success(v) =>
        match ConvertAll(cells[1..], ty)
        case Failure(e) => Failure(e)
        case Success(vs) =>
          assert forall k :: 1 <= k < |cells| ==> cells[k] == cells[1..][k - 1];
          Success([v] + vs)
  }

  /** CSVFile::Get<T>(row, col): the column is checked against the first
      row's width before the row is checked against the row count. */
  function Get(t: Table, row: nat, col: nat, ty: CellType): (r: Result<Value, CsvError>)
    requires |t.rows| > 0
    ensures r == Failure(ColumnOutOfBounds) <==> col >= |t.rows[0]|
    ensures r == Failure(RowOutOfBounds) <==> col < |t.rows[0]| && row >= |t.rows|
    ensures col < |t.rows[0]| && row < |t.rows| ==>
              col < |t.rows[row]| && r == ConvertFromString(t.rows[row][col], ty)
  {
    if col >= |t.rows[0]| then Failure(ColumnOutOfBounds)
    else if row >= |t.rows| then Failure(RowOutOfBounds)
    else ConvertFromString(t.rows[row][col], ty)
  }

  /** CSVFile::Col<T>(index): the converted cells of one column, top to bottom. */
  function Col(t: Table, index: nat, ty: CellType): (r: Result<seq<Value>, CsvError>)
    requires |t.rows| > 0
    ensures index >= |t.rows[0]| ==> r == Failure(ColumnOutOfBounds)
    ensures index < |t.rows[0]| ==>
              (r.Success? <==> forall k :: 0 <= k < |t.rows| ==> ConvertFromString(t.rows[k][index], ty).Success?)
    ensures index < |t.rows[0]| && r.Failure? ==> r.error == InvalidConversion
    ensures r.Success? ==>
              |r.value| == |t.rows| &&
              forall k :: 0 <= k < |t.rows| ==> ConvertFromString(t.rows[k][index], ty) == Success(r.value[k])
  {
    if index >= |t.rows[0]| then Failure(ColumnOutOfBounds)
    else
      var cells := seq(|t.rows|, k requires 0 <= k < |t.rows| => t.rows[k][index]);
      assert forall k :: 0 <= k < |t.rows| ==> cells[k] == t.rows[k][index];
      ConvertAll(cells, ty)
  }

  /** CSVFile::Row<T>(index): the converted cells of one row, left to right. */
  function Row(t: Table, index: nat, ty: CellType): (r: Result<seq<Value>, CsvError>)
    ensures index >= |t.rows| ==> r == Failure(RowOutOfBounds)
    ensures index < |t.rows| ==>
              (r.Success? <==> forall k :: 0 <= k < |t.rows[index]| ==> ConvertFromString(t.rows[index][k], ty).Success?)
    ensures index < |t.rows| && r.Failure? ==> r.error == InvalidConversion
    ensures r.Success? ==>
              |r.value| == |t.rows[0]| &&
              forall k :: 0 <= k < |t.rows[index]| ==> ConvertFromString(t.rows[index][k], ty) == Success(r.value[k])
  {
    if index >= |t.rows| then Failure(RowOutOfBounds)
    else ConvertAll(t.rows[index], ty)
  }

  /** CSVFile::GetPtrRow(index): the raw row, if it exists. */
  function GetPtrRow(t: Table, index: nat): (r: Result<seq<string>, CsvError>)
    ensures r.Success? <==> index < |t.rows|
    ensures r.Success? ==> r.value == t.rows[index] && |r.value| == |t.rows[0]|
    ensures r.Failure? ==> r.error == RowOutOfBounds
  {
    if index >= |t.rows| then Failure(RowOutOfBounds) else Success(t.rows[index])
  }
}
