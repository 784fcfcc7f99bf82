/**
 * Recipient extraction: the `handleFileUpload` handlers of App.js and
 * BulkMailForm.jsx. The sheet parser's output (`sheet_to_json` with
 * `header: 1`) is the input: a sequence of rows, each a sequence of cells.
 * Every row's first cell is kept when it is truthy and contains '@'; order and
 * duplicates survive, and no header row is skipped. A truthy cell that is not a
 * string makes `v.includes` throw, which aborts the handler.
 */
module Recipients {
  import opened Wrappers

  /** A cell value as the sheet parser delivers it; `Absent` is `undefined`. */
  datatype Cell = Absent | Str(s: string) | Num(n: int) | Bool(b: bool)

  type Row = seq<Cell>
  type Sheet = seq<Row>

  /** The TypeError thrown by `v.includes("@")` on a truthy non-string `v`. */
  datatype ExtractError = IncludesNotAFunction(cell: Cell)

  /** `row[0]`: an empty row yields `undefined`. */
  function FirstCell(row: Row): Cell
  {
    if |row| == 0 then Absent else row[0]
  }

  /** JavaScript truthiness of a cell value. */
  predicate Truthy(c: Cell)
  {
    match c
    case Absent => false
    case Str(s) => s != ""
    case Num(n) => n != 0
    case Bool(b) => b
  }

  /** The cell is a string holding '@': what the filter keeps. */
  predicate IsAddress(c: Cell)
  {
    c.Str? && '@' in c.s
  }

  /** The cell makes `v && v.includes("@")` throw. */
  predicate Throws(c: Cell)
  {
    Truthy(c) && !c.Str?
  }

  /** Evaluates the filter predicate `v && v.includes("@")` on one value. */
  function KeepCell(c: Cell): (r: Result<bool, ExtractError>)
    ensures r.Failure? <==> Throws(c)
    ensures r.Failure? ==> r.error == IncludesNotAFunction(c)
    ensures r == Success(true) <==> IsAddress(c)
  {
    if !Truthy(c) then Success(false)
    else if c.Str? then Success('@' in c.s)
    else Failure(IncludesNotAFunction(c))
  }

  /** `data.map((row) => row[0])`. */
  function FirstColumn(sheet: Sheet): (col: seq<Cell>)
    ensures |col| == |sheet|
    ensures forall i :: 0 <= i < |sheet| ==> col[i] == FirstCell(sheet[i])
  {
    seq(|sheet|, i requires 0 <= i < |sheet| => FirstCell(sheet[i]))
  }

  /** `cells.filter((v) => v && v.includes("@"))`, front to back; the first throw wins. */
  function FilterAddresses(cells: seq<Cell>): Result<seq<string>, ExtractError>
  {
    if |cells| == 0 then Success([])
    else
      match KeepCell(cells[0])
      case Failure(e) => Failure(e)
      case Success(keep) =>
        match FilterAddresses(cells[1..])
        case Failure(e) => Failure(e)
        case Success(rest) => Success(if keep then [cells[0].s] + rest else rest)
  }

  /** The extraction of both upload handlers: map to the first column, then filter. */
  function ExtractEmails(sheet: Sheet): Result<seq<string>, ExtractError>
  {
    FilterAddresses(FirstColumn(sheet))
  }

  /** Sequencing of two extractions: the first failure wins, successes concatenate. */
  function Then(a: Result<seq<string>, ExtractError>, b: Result<seq<string>, ExtractError>): Result<seq<string>, ExtractError>
  {
    match a
    case Failure(e) => Failure(e)
    case Success(x) =>
      match b
      case Failure(e) => Failure(e)
      case Success(y) => Success(x + y)
  }

  lemma {:induction false} FilterAppend(a: seq<Cell>, b: seq<Cell>)
    ensures FilterAddresses(a + b) == Then(FilterAddresses(a), FilterAddresses(b))
    decreases |a|
  {
    if |a| == 0 {
      assert a + b == b;
      match FilterAddresses(b) {
        case Failure(_) =>
        case Success(y) => assert [] + y == y;
      }
    } else {
      assert (a + b)[0] == a[0];
      assert (a + b)[1..] == a[1..] + b;
      FilterAppend(a[1..], b);
      if KeepCell(a[0]) == Success(true) {
        match FilterAddresses(a[1..]) {
          case Failure(_) =>
          case Success(x) =>
            match FilterAddresses(b) {
              case Failure(_) =>
              case Success(y) =>
                assert [a[0].s] + (x + y) == ([a[0].s] + x) + y;
            }
        }
      }
    }
  }

  lemma FirstColumnAppend(s1: Sheet, s2: Sheet)
    ensures FirstColumn(s1 + s2) == FirstColumn(s1) + FirstColumn(s2)
  {
  }

  /**
   * Extraction is a homomorphism over row concatenation: a sheet's result is
   * its rows' results in row order, stopping at the first row that throws.
   * Together with ExtractSingleRow this determines ExtractEmails completely.
   */
  lemma ExtractAppend(s1: Sheet, s2: Sheet)
    ensures ExtractEmails(s1 + s2) == Then(ExtractEmails(s1), ExtractEmails(s2))
  {
    FirstColumnAppend(s1, s2);
    FilterAppend(FirstColumn(s1), FirstColumn(s2));
  }

  /** What one row contributes: its address, nothing, or the thrown error. */
  lemma ExtractSingleRow(row: Row)
    ensures IsAddress(FirstCell(row)) ==> ExtractEmails([row]) == Success([FirstCell(row).s])
    ensures !IsAddress(FirstCell(row)) && !Throws(FirstCell(row)) ==> ExtractEmails([row]) == Success([])
    ensures Throws(FirstCell(row)) ==> ExtractEmails([row]) == Failure(IncludesNotAFunction(FirstCell(row)))
  {
    var col := FirstColumn([row]);
    assert col == [FirstCell(row)];
    assert col[1..] == [];
    assert FilterAddresses(col[1..]) == Success([]);
    if IsAddress(FirstCell(row)) {
      assert [FirstCell(row).s] + [] == [FirstCell(row).s];
    }
  }

  lemma FirstColumnCons(sheet: Sheet)
    requires |sheet| > 0
    ensures FirstColumn(sheet) == [FirstCell(sheet[0])] + FirstColumn(sheet[1..])
  {
  }

  /** Extraction fails exactly when some row's first cell is a truthy non-string. */
  lemma {:induction false} ExtractFailsIff(sheet: Sheet)
    ensures ExtractEmails(sheet).Failure? <==> exists i :: 0 <= i < |sheet| && Throws(FirstCell(sheet[i]))
    decreases |sheet|
  {
    if |sheet| > 0 {
      FirstColumnCons(sheet);
      ExtractFailsIff(sheet[1..]);
      if Throws(FirstCell(sheet[0])) {
      } else if exists i :: 0 <= i < |sheet| && Throws(FirstCell(sheet[i])) {
        var i :| 0 <= i < |sheet| && Throws(FirstCell(sheet[i]));
        assert sheet[1..][i - 1] == sheet[i];
      } else {
        forall i | 0 <= i < |sheet[1..]|
          ensures !Throws(FirstCell(sheet[1..][i]))
        {
          assert sheet[1..][i] == sheet[i + 1];
        }
      }
    }
  }

  /** A failure reports the first offending cell in row order. */
  lemma ExtractFailureIsFirstThrow(sheet: Sheet, i: nat)
    requires i < |sheet| && Throws(FirstCell(sheet[i]))
    requires forall j :: 0 <= j < i ==> !Throws(FirstCell(sheet[j]))
    ensures ExtractEmails(sheet) == Failure(IncludesNotAFunction(FirstCell(sheet[i])))
  {
    var prefix := sheet[..i];
    assert sheet == prefix + ([sheet[i]] + sheet[i + 1..]);
    forall j | 0 <= j < |prefix|
      ensures !Throws(FirstCell(prefix[j]))
    {
      assert prefix[j] == sheet[j];
    }
    ExtractFailsIff(prefix);
    ExtractSingleRow(sheet[i]);
    ExtractAppend([sheet[i]], sheet[i + 1..]);
    ExtractAppend(prefix, [sheet[i]] + sheet[i + 1..]);
  }

  /** Every extracted value is a string containing '@', hence non-empty. */
  lemma {:induction false} ExtractedAreAddresses(sheet: Sheet)
    requires ExtractEmails(sheet).Success?
    ensures forall k :: 0 <= k < |ExtractEmails(sheet).value| ==>
      '@' in ExtractEmails(sheet).value[k] && ExtractEmails(sheet).value[k] != ""
    ensures |ExtractEmails(sheet).value| <= |sheet|
    decreases |sheet|
  {
    if |sheet| > 0 {
      FirstColumnCons(sheet);
      ExtractedAreAddresses(sheet[1..]);
    }
  }

  /** Number of occurrences of `a` in `xs`. */
  function Occurrences(xs: seq<string>, a: string): nat
  {
    if |xs| == 0 then 0 else (if xs[0] == a then 1 else 0) + Occurrences(xs[1..], a)
  }

  /** Number of rows whose first cell is exactly the string `a`. */
  function RowsStartingWith(sheet: Sheet, a: string): nat
  {
    if |sheet| == 0 then 0
    else (if FirstCell(sheet[0]) == Str(a) then 1 else 0) + RowsStartingWith(sheet[1..], a)
  }

  /**
   * Duplicates are kept and nothing is invented: an address that begins k rows
   * appears k times in the result, and a string without '@' never appears.
   */
  lemma {:induction false} ExtractKeepsMultiplicity(sheet: Sheet, a: string)
    requires ExtractEmails(sheet).Success?
    ensures Occurrences(ExtractEmails(sheet).value, a) == if '@' in a then RowsStartingWith(sheet, a) else 0
    decreases |sheet|
  {
    if |sheet| > 0 {
      FirstColumnCons(sheet);
      ExtractKeepsMultiplicity(sheet[1..], a);
      var rest := ExtractEmails(sheet[1..]).value;
      if IsAddress(FirstCell(sheet[0])) {
        assert ExtractEmails(sheet).value == [FirstCell(sheet[0]).s] + rest;
        assert ([FirstCell(sheet[0]).s] + rest)[1..] == rest;
      }
    }
  }

  lemma {:induction false} OccurrencesPositive(xs: seq<string>, a: string)
    ensures Occurrences(xs, a) > 0 <==> a in xs
    decreases |xs|
  {
    if |xs| > 0 {
      OccurrencesPositive(xs[1..], a);
      assert xs == [xs[0]] + xs[1..];
    }
  }

  lemma {:induction false} RowsStartingWithPositive(sheet: Sheet, a: string)
    ensures RowsStartingWith(sheet, a) > 0 <==> exists i :: 0 <= i < |sheet| && FirstCell(sheet[i]) == Str(a)
    decreases |sheet|
  {
    if |sheet| > 0 {
      RowsStartingWithPositive(sheet[1..], a);
      if exists i :: 0 <= i < |sheet| && FirstCell(sheet[i]) == Str(a) {
        var i :| 0 <= i < |sheet| && FirstCell(sheet[i]) == Str(a);
        if i > 0 {
          assert sheet[1..][i - 1] == sheet[i];
        }
      }
      if exists i :: 0 <= i < |sheet[1..]| && FirstCell(sheet[1..][i]) == Str(a) {
        var i :| 0 <= i < |sheet[1..]| && FirstCell(sheet[1..][i]) == Str(a);
        assert sheet[1..][i] == sheet[i + 1];
      }
    }
  }

  /** An address is extracted iff it contains '@' and is the first cell of some row. */
  lemma ExtractMembership(sheet: Sheet, a: string)
    requires ExtractEmails(sheet).Success?
    ensures a in ExtractEmails(sheet).value <==>
      '@' in a && exists i :: 0 <= i < |sheet| && FirstCell(sheet[i]) == Str(a)
  {
    ExtractKeepsMultiplicity(sheet, a);
    OccurrencesPositive(ExtractEmails(sheet).value, a);
    RowsStartingWithPositive(sheet, a);
  }

  /** Row 0 is data, not a header: an address there leads the result. */
  lemma NoHeaderSkip(sheet: Sheet)
    requires |sheet| > 0 && IsAddress(FirstCell(sheet[0]))
    requires ExtractEmails(sheet).Success?
    ensures |ExtractEmails(sheet).value| > 0 && ExtractEmails(sheet).value[0] == FirstCell(sheet[0]).s
  {
    assert sheet == [sheet[0]] + sheet[1..];
    ExtractAppend([sheet[0]], sheet[1..]);
    ExtractSingleRow(sheet[0]);
  }

  /**
   * The map-and-filter chain as a single loop over the rows, agreeing with
   * ExtractEmails on every sheet, errors included.
   */
  method ExtractOnePass(sheet: Sheet) returns (r: Result<seq<string>, ExtractError>)
    ensures r == ExtractEmails(sheet)
  {
    var acc: seq<string> := [];
    var i := 0;
    while i < |sheet|
      invariant 0 <= i <= |sheet|
      invariant ExtractEmails(sheet[..i]) == Success(acc)
    {
      var c := FirstCell(sheet[i]);
      assert sheet[..i + 1] == sheet[..i] + [sheet[i]];
      ExtractAppend(sheet[..i], [sheet[i]]);
      ExtractSingleRow(sheet[i]);
      match KeepCell(c) {
        case Failure(e) =>
          assert sheet == sheet[..i + 1] + sheet[i + 1..];
          ExtractAppend(sheet[..i + 1], sheet[i + 1..]);
          return Failure(e);
        case Success(keep) =>
          if keep {
            acc := acc + [c.s];
          } else {
            assert acc + [] == acc;
          }
      }
      i := i + 1;
    }
    assert sheet[..i] == sheet;
    r := Success(acc);
  }

  /**
   * The `emails` state after an upload: a successful extraction replaces the
   * list (no appending); a throwing one never reaches `setEmails`, so the
   * previous list stays.
   */
  function Upload(previous: seq<string>, sheet: Sheet): (emails: seq<string>)
    ensures ExtractEmails(sheet).Success? ==> emails == ExtractEmails(sheet).value
    ensures ExtractEmails(sheet).Failure? ==> emails == previous
  {
    match ExtractEmails(sheet)
    case Success(list) => list
    case Failure(_) => previous
  }

  /** A successful upload forgets whatever list was loaded before. */
  lemma UploadReplaces(p: seq<string>, q: seq<string>, first: Sheet, sheet: Sheet)
    requires ExtractEmails(sheet).Success?
    ensures Upload(Upload(p, first), sheet) == Upload(q, sheet)
    ensures |Upload(q, sheet)| <= |sheet|
  {
    ExtractedAreAddresses(sheet);
  }

  /** A byte of the uploaded file's ArrayBuffer. */
  type Byte = b: int | 0 <= b < 256

  /**
   * App.js's `Uint8Array(buf).reduce((acc, byte) => acc + String.fromCharCode(byte), "")`:
   * a left fold that appends one character per byte.
   */
  function BinaryString(bytes: seq<Byte>): (s: string)
    ensures |s| == |bytes|
    ensures forall i :: 0 <= i < |s| ==> s[i] as int == bytes[i]
  {
    if |bytes| == 0 then ""
    else BinaryString(bytes[..|bytes| - 1]) + [bytes[|bytes| - 1] as char]
  }

  /** A string every character of which is a byte-sized code unit. */
  predicate IsBinaryString(s: string)
  {
    forall i :: 0 <= i < |s| ==> s[i] as int < 256
  }

  /** `charCodeAt` for every position of a binary string. */
  function CharCodes(s: string): (bytes: seq<Byte>)
    requires IsBinaryString(s)
    ensures |bytes| == |s|
    ensures forall i :: 0 <= i < |s| ==> bytes[i] == s[i] as int
  {
    seq(|s|, i requires 0 <= i < |s| => s[i] as int)
  }

  /** The conversion loses nothing: char codes give the bytes back, and conversely. */
  lemma BinaryStringRoundTrip(bytes: seq<Byte>, s: string)
    ensures IsBinaryString(BinaryString(bytes)) && CharCodes(BinaryString(bytes)) == bytes
    ensures IsBinaryString(s) ==> BinaryString(CharCodes(s)) == s
  {
  }
}
