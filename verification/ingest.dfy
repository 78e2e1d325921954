/**
  Row assembly and shape check of main.js (`getData`).

  The file arrives here already split into rows and each row into its
  comma-separated fields.  A row whose fields are all empty (a line of
  commas only) is skipped; every other row gives a station whose id is the
  row index, and its third field onwards are the raw time cells of the
  services in column order.  Row 0 creates the services; a later row with
  more cells than row 0 makes the source dereference a missing service, and
  one with fewer leaves some service short, which the final check reports.
*/
module Ingest {
  import opened Wrappers
  import opened TimeParser
  import opened Timetable

  /** The fields of one line of the file. */
  type Row = seq<string>

  /** The UTF-8 byte-order mark as read by `readAsBinaryString`. */
  const ByteOrderMark: string := "ï»¿"

  /** Drop a leading byte-order mark. */
  function StripBom(s: string): (r: string)
    ensures if |s| >= 3 && s[..3] == ByteOrderMark then ByteOrderMark + r == s else r == s
  {
    if |s| >= 3 && s[..3] == ByteOrderMark then s[3..] else s
  }

  /** `row.replace(/,/g, '') === ''`: the line holds nothing but commas. */
  predicate Blank(row: Row)
  {
    forall i :: 0 <= i < |row| ==> row[i] == ""
  }

  function Name(row: Row): string { if |row| > 0 then row[0] else "" }

  function StationType(row: Row): string { if |row| > 1 then row[1] else "" }

  /** The raw time cells: every field after the name and the type. */
  function Cells(row: Row): seq<string> { if |row| > 2 then row[2..] else [] }

  /** The number of services, fixed by row 0 (none when row 0 is blank). */
  function ServiceCount(rows: seq<Row>): nat
  {
    if |rows| > 0 && !Blank(rows[0]) then |Cells(rows[0])| else 0
  }

  /** The stations of the non-blank rows among the first `k`. */
  function BankOf(rows: seq<Row>, k: nat): (bank: seq<Station>)
    requires k <= |rows|
    ensures |bank| <= k
    ensures forall p :: 0 <= p < |bank| ==> bank[p].id < k
  {
    if k == 0 then []
    else if Blank(rows[k - 1]) then BankOf(rows, k - 1)
    else BankOf(rows, k - 1) + [Station(k - 1, Name(rows[k - 1]), StationType(rows[k - 1]))]
  }

  /** The raw cells of service `j` in the first `k` rows. */
  function RawColumn(rows: seq<Row>, k: nat, j: nat): seq<string>
    requires k <= |rows|
  {
    if k == 0 then []
    else if !Blank(rows[k - 1]) && j < |Cells(rows[k - 1])| then
      RawColumn(rows, k - 1, j) + [Cells(rows[k - 1])[j]]
    else RawColumn(rows, k - 1, j)
  }

  /** Each raw cell parsed into a fresh cell. */
  function Parsed(raws: seq<string>): (cells: seq<Cell>)
    ensures |cells| == |raws|
    ensures forall p :: 0 <= p < |raws| ==> cells[p] == FreshCell(RawToTime(raws[p]))
  {
    seq(|raws|, p requires 0 <= p < |raws| => FreshCell(RawToTime(raws[p])))
  }

  /** The cells of service `j` pushed by the first `k` rows. */
  function Column(rows: seq<Row>, k: nat, j: nat): (cells: seq<Cell>)
    requires k <= |rows|
    ensures |cells| == |RawColumn(rows, k, j)|
  {
    Parsed(RawColumn(rows, k, j))
  }

  /** The non-blank row at or after `i` (and after row 0) with more cells than
      there are services, where the source reads a service that does not exist. */
  function FirstOverwide(rows: seq<Row>, n: nat, i: nat): (r: Option<nat>)
    requires 1 <= i <= |rows|
    ensures r.Some? ==> i <= r.value < |rows| && !Blank(rows[r.value]) && |Cells(rows[r.value])| > n
    ensures r.Some? ==> forall k :: i <= k < r.value && !Blank(rows[k]) ==> |Cells(rows[k])| <= n
    ensures r.None? ==> forall k :: i <= k < |rows| && !Blank(rows[k]) ==> |Cells(rows[k])| <= n
    decreases |rows| - i
  {
    if i == |rows| then None
    else if !Blank(rows[i]) && |Cells(rows[i])| > n then Some(i)
    else FirstOverwide(rows, n, i + 1)
  }

  /** `services.find(service => service.times.length !== bank.length)`, as an index. */
  function FirstInvalid(columns: seq<seq<Cell>>, width: nat, j: nat): (r: Option<nat>)
    requires j <= |columns|
    ensures r.Some? ==> j <= r.value < |columns| && |columns[r.value]| != width
    ensures r.Some? ==> forall k :: j <= k < r.value ==> |columns[k]| == width
    ensures r.None? ==> forall k :: j <= k < |columns| ==> |columns[k]| == width
    decreases |columns| - j
  {
    if j == |columns| then None
    else if |columns[j]| != width then Some(j)
    else FirstInvalid(columns, width, j + 1)
  }

  /** The loaded table: the full bank and the full service list. */
  datatype Loaded = Loaded(bank: seq<Station>, services: seq<Service>)

  /** The two ways a load fails: a row with more cells than row 0 (the source
      throws a TypeError there), or a service left short, reported with the
      rendering of its first cell and the name of the first station. */
  datatype IngestError =
    | MissingService(rowIndex: nat)
    | InvalidStopCount(vis: string, stationName: string)

  lemma {:induction false} ColumnStartsWithRowZero(rows: seq<Row>, k: nat, j: nat)
    requires 1 <= k <= |rows| && !Blank(rows[0]) && j < |Cells(rows[0])|
    ensures |Column(rows, k, j)| > 0 && Column(rows, k, j)[0] == FreshCell(RawToTime(Cells(rows[0])[j]))
    ensures |BankOf(rows, k)| > 0 && BankOf(rows, k)[0].name == Name(rows[0])
  {
    RawColumnStartsWithRowZero(rows, k, j);
  }

  lemma {:induction false} RawColumnStartsWithRowZero(rows: seq<Row>, k: nat, j: nat)
    requires 1 <= k <= |rows| && !Blank(rows[0]) && j < |Cells(rows[0])|
    ensures |RawColumn(rows, k, j)| > 0 && RawColumn(rows, k, j)[0] == Cells(rows[0])[j]
    ensures |BankOf(rows, k)| > 0 && BankOf(rows, k)[0].name == Name(rows[0])
  {
    if k > 1 {
      RawColumnStartsWithRowZero(rows, k - 1, j);
    }
  }

  /** `times.findIndex(x => x.vis !== '')` from position `i`, -1 when there is none. */
  function FindVisible(times: seq<Cell>, i: nat): (k: int)
    requires i <= |times|
    ensures k == -1 || i <= k < |times|
    ensures k == -1 <==> forall q :: i <= q < |times| ==> times[q].time.vis == ""
    ensures k != -1 ==> times[k].time.vis != "" && forall q :: i <= q < k ==> times[q].time.vis == ""
    decreases |times| - i
  {
    if i == |times| then -1
    else if times[i].time.vis != "" then i
    else FindVisible(times, i + 1)
  }

  /** The outcome of `getData` on the split rows. */
  function Load(rows: seq<Row>): Result<Loaded, IngestError>
  {
    var n := ServiceCount(rows);
    if |rows| == 0 then Ok(Loaded([], []))
    else match FirstOverwide(rows, n, 1)
      case Some(i) => Err(MissingService(i))
      case None =>
        var bank := BankOf(rows, |rows|);
        var columns := seq(n, j requires 0 <= j => Column(rows, |rows|, j));
        match FirstInvalid(columns, |bank|, 0)
        case Some(j) =>
          ColumnStartsWithRowZero(rows, |rows|, j);
          Err(InvalidStopCount(columns[j][0].time.vis, bank[0].name))
        case None => Ok(Loaded(bank, seq(n, j requires 0 <= j < n => Service(columns[j], false))))
  }

  /** Some station of `bank` comes from row `i`. */
  predicate HasStation(bank: seq<Station>, i: nat)
  {
    exists p :: 0 <= p < |bank| && bank[p].id == i
  }

  lemma {:induction false} BankIdsIncrease(rows: seq<Row>, k: nat)
    requires k <= |rows|
    ensures StrictlyIncreasingIds(BankOf(rows, k))
  {
    if k > 0 {
      BankIdsIncrease(rows, k - 1);
      BankStep(rows, k - 1);
    }
  }

  lemma {:induction false} BankRows(rows: seq<Row>, k: nat)
    requires k <= |rows|
    ensures forall i :: 0 <= i < k ==> (!Blank(rows[i]) <==> HasStation(BankOf(rows, k), i))
  {
    if k > 0 {
      BankRows(rows, k - 1);
      BankStep(rows, k - 1);
      var prev := BankOf(rows, k - 1);
      var bank := BankOf(rows, k);
      forall i | 0 <= i < k
        ensures (!Blank(rows[i]) <==> HasStation(bank, i))
      {
        if i == k - 1 {
          if !Blank(rows[i]) {
            assert bank[|prev|].id == i;
            assert HasStation(bank, i);
          } else {
            assert bank == prev;
          }
        } else if !Blank(rows[i]) {
          var p :| 0 <= p < |prev| && prev[p].id == i;
          assert bank[p] == prev[p];
          assert HasStation(bank, i);
        } else {
          forall p | 0 <= p < |bank| ensures bank[p].id != i {
            if p < |prev| { assert bank[p] == prev[p]; }
          }
        }
      }
    }
  }

  lemma {:induction false} BankNames(rows: seq<Row>, k: nat)
    requires k <= |rows|
    ensures forall p :: 0 <= p < |BankOf(rows, k)| ==>
      var st := BankOf(rows, k)[p];
      st.name == Name(rows[st.id]) && st.stationType == StationType(rows[st.id])
  {
    if k > 0 {
      BankNames(rows, k - 1);
      BankStep(rows, k - 1);
    }
  }

  /** Every non-blank row among the first `k` has a cell for service `j`. */
  predicate AllReach(rows: seq<Row>, k: nat, j: nat)
    requires k <= |rows|
  {
    k == 0 || (AllReach(rows, k - 1, j) && (!Blank(rows[k - 1]) ==> j < |Cells(rows[k - 1])|))
  }

  lemma {:induction false} AllReachIff(rows: seq<Row>, k: nat, j: nat)
    requires k <= |rows|
    ensures AllReach(rows, k, j) <==> forall i :: 0 <= i < k && !Blank(rows[i]) ==> j < |Cells(rows[i])|
  {
    if k > 0 {
      AllReachIff(rows, k - 1, j);
    }
  }

  lemma BankStep(rows: seq<Row>, k: nat)
    requires k < |rows|
    ensures BankOf(rows, k + 1) == BankOf(rows, k)
      + (if Blank(rows[k]) then [] else [Station(k, Name(rows[k]), StationType(rows[k]))])
  {}

  lemma ColumnLengthStep(rows: seq<Row>, k: nat, j: nat)
    requires k < |rows|
    ensures |RawColumn(rows, k + 1, j)| == |RawColumn(rows, k, j)| + (if !Blank(rows[k]) && j < |Cells(rows[k])| then 1 else 0)
  {}

  lemma BankLengthStep(rows: seq<Row>, k: nat)
    requires k < |rows|
    ensures |BankOf(rows, k + 1)| == |BankOf(rows, k)| + (if Blank(rows[k]) then 0 else 1)
  {}

  /** Service `j` has a cell per station exactly when every non-blank row reaches it. */
  lemma {:induction false} ColumnLength(rows: seq<Row>, k: nat, j: nat)
    requires k <= |rows|
    ensures |Column(rows, k, j)| <= |BankOf(rows, k)|
    ensures |Column(rows, k, j)| == |BankOf(rows, k)| <==> AllReach(rows, k, j)
  {
    RawColumnLength(rows, k, j);
  }

  lemma {:induction false} RawColumnLength(rows: seq<Row>, k: nat, j: nat)
    requires k <= |rows|
    ensures |RawColumn(rows, k, j)| <= |BankOf(rows, k)|
    ensures |RawColumn(rows, k, j)| == |BankOf(rows, k)| <==> AllReach(rows, k, j)
  {
    if k > 0 {
      RawColumnLength(rows, k - 1, j);
      ColumnLengthStep(rows, k - 1, j);
      BankLengthStep(rows, k - 1);
    }
  }

  /** When every row reaches service `j`, its cell at station `p` is the parse
      of that station's row's cell `j`. */
  lemma {:induction false} ColumnCells(rows: seq<Row>, k: nat, j: nat)
    requires k <= |rows|
    requires AllReach(rows, k, j)
    ensures |Column(rows, k, j)| == |BankOf(rows, k)|
    ensures forall p :: 0 <= p < |BankOf(rows, k)| ==>
      var id := BankOf(rows, k)[p].id;
      j < |Cells(rows[id])| && Column(rows, k, j)[p] == FreshCell(RawToTime(Cells(rows[id])[j]))
  {
    RawColumnCells(rows, k, j);
  }

  lemma {:induction false} RawColumnCells(rows: seq<Row>, k: nat, j: nat)
    requires k <= |rows|
    requires AllReach(rows, k, j)
    ensures |RawColumn(rows, k, j)| == |BankOf(rows, k)|
    ensures forall p :: 0 <= p < |BankOf(rows, k)| ==>
      var id := BankOf(rows, k)[p].id;
      j < |Cells(rows[id])| && RawColumn(rows, k, j)[p] == Cells(rows[id])[j]
  {
    if k > 0 {
      RawColumnCells(rows, k - 1, j);
      BankStep(rows, k - 1);
      var prev, col := BankOf(rows, k - 1), RawColumn(rows, k - 1, j);
      var bank, col' := BankOf(rows, k), RawColumn(rows, k, j);
      if Blank(rows[k - 1]) {
        assert bank == prev && col' == col;
      } else {
        assert col' == col + [Cells(rows[k - 1])[j]];
        forall p | 0 <= p < |bank|
          ensures j < |Cells(rows[bank[p].id])| && col'[p] == Cells(rows[bank[p].id])[j]
        {
          if p < |prev| {
            assert bank[p] == prev[p] && col'[p] == col[p];
          }
        }
      }
    }
  }

  /** The value of a successful load, spelled out. */
  lemma LoadOkValue(rows: seq<Row>)
    requires Load(rows).Ok? && |rows| > 0
    ensures FirstOverwide(rows, ServiceCount(rows), 1).None?
    ensures Load(rows).value.bank == BankOf(rows, |rows|)
    ensures |Load(rows).value.services| == ServiceCount(rows)
    ensures forall j :: 0 <= j < ServiceCount(rows) ==>
      Load(rows).value.services[j] == Service(Column(rows, |rows|, j), false)
      && |Column(rows, |rows|, j)| == |BankOf(rows, |rows|)|
  {
    var n := ServiceCount(rows);
    var bank := BankOf(rows, |rows|);
    var columns := seq(n, j requires 0 <= j => Column(rows, |rows|, j));
    assert FirstInvalid(columns, |bank|, 0).None?;
    assert Load(rows) == Ok(Loaded(bank, seq(n, j requires 0 <= j < n => Service(columns[j], false))));
    forall j | 0 <= j < n ensures |Column(rows, |rows|, j)| == |bank| {
      assert columns[j] == Column(rows, |rows|, j);
    }
  }

  /** Without blank rows, the first `k` rows give `k` stations, each with its
      position as id. */
  lemma {:induction false} DenseBank(rows: seq<Row>, k: nat)
    requires k <= |rows| && forall i :: 0 <= i < k ==> !Blank(rows[i])
    ensures |BankOf(rows, k)| == k && IdsArePositions(BankOf(rows, k))
  {
    if k > 0 {
      DenseBank(rows, k - 1);
      BankStep(rows, k - 1);
    }
  }

  /** A file without blank rows loads into a bank whose ids are its positions. */
  lemma NoBlankRowIdsArePositions(rows: seq<Row>, ld: Loaded)
    requires Load(rows) == Ok(ld) && forall i :: 0 <= i < |rows| ==> !Blank(rows[i])
    ensures |ld.bank| == |rows| && IdsArePositions(ld.bank)
  {
    if |rows| > 0 {
      LoadOkValue(rows);
      DenseBank(rows, |rows|);
    }
  }

  /** A blank row between two stations loads fine, but shifts the ids: the
      second station keeps id 2 at position 1. */
  lemma BlankRowShiftsIds(rows: seq<Row>)
    requires rows == [["A", "T", "1"], ["", "", ""], ["B", "T", "2"]]
    ensures Load(rows).Ok? && !IdsArePositions(Load(rows).value.bank)
  {
    assert rows[0][0] == "A" && rows[2][0] == "B";
    assert !Blank(rows[0]) && Blank(rows[1]) && !Blank(rows[2]);
    assert ServiceCount(rows) == 1 && |Cells(rows[2])| == 1;
    LoadOkIff(rows);
    LoadOkValue(rows);
    BlankRowBank(rows);
    assert Load(rows).value.bank[1].id == 2;
  }

  lemma BlankRowBank(rows: seq<Row>)
    requires rows == [["A", "T", "1"], ["", "", ""], ["B", "T", "2"]]
    ensures BankOf(rows, 3) == [Station(0, "A", "T"), Station(2, "B", "T")]
  {
    assert rows[0][0] == "A" && rows[2][0] == "B";
    assert !Blank(rows[0]) && Blank(rows[1]) && !Blank(rows[2]);
    BankStep(rows, 0);
    BankStep(rows, 1);
    BankStep(rows, 2);
  }

  /** The bank of a successful load has one station per non-blank row, with
      the row index as id (so the ids increase) and the row's name and type. */
  lemma LoadedBank(rows: seq<Row>, ld: Loaded)
    requires Load(rows) == Ok(ld)
    ensures StrictlyIncreasingIds(ld.bank)
    ensures forall i :: 0 <= i < |rows| ==> (!Blank(rows[i]) <==> HasStation(ld.bank, i))
    ensures forall p :: 0 <= p < |ld.bank| ==>
      ld.bank[p].name == Name(rows[ld.bank[p].id]) && ld.bank[p].stationType == StationType(rows[ld.bank[p].id])
  {
    if |rows| > 0 {
      LoadOkValue(rows);
      BankIdsIncrease(rows, |rows|);
      BankRows(rows, |rows|);
      BankNames(rows, |rows|);
    } else {
      assert ld == Loaded([], []);
    }
  }

  /** The cell of service `j` at station `p` is the parse of column `j` of
      that station's row. */
  predicate ServiceCellParsed(rows: seq<Row>, ld: Loaded, j: nat, p: nat)
    requires j < |ld.services| && p < |ld.bank|
  {
    var id := ld.bank[p].id;
    && id < |rows|
    && j < |Cells(rows[id])|
    && p < |ld.services[j].times|
    && ld.services[j].times[p] == FreshCell(RawToTime(Cells(rows[id])[j]))
  }

  lemma LoadedCell(rows: seq<Row>, ld: Loaded, j: nat, p: nat)
    requires Load(rows) == Ok(ld) && |rows| > 0
    requires j < |ld.services| && p < |ld.bank|
    ensures ServiceCellParsed(rows, ld, j, p)
  {
    LoadOkValue(rows);
    ColumnLength(rows, |rows|, j);
    ColumnCells(rows, |rows|, j);
  }

  /** A successful load has as many services as row 0 has cells, none of them
      marked, each with one cell per station; the cell of service `j` at
      station `p` is the parse of column `j` of that station's row. */
  lemma LoadedServices(rows: seq<Row>, ld: Loaded)
    requires Load(rows) == Ok(ld)
    ensures |ld.services| == ServiceCount(rows)
    ensures Rectangular(ld.services, |ld.bank|)
    ensures forall j :: 0 <= j < |ld.services| ==> !ld.services[j].isPatternMatching
    ensures forall j, p :: 0 <= j < |ld.services| && 0 <= p < |ld.bank| ==>
      ServiceCellParsed(rows, ld, j, p)
  {
    if |rows| > 0 {
      LoadOkValue(rows);
      forall j, p | 0 <= j < |ld.services| && 0 <= p < |ld.bank|
        ensures ServiceCellParsed(rows, ld, j, p)
      {
        LoadedCell(rows, ld, j, p);
      }
    } else {
      assert ld == Loaded([], []);
    }
  }

  /** A load succeeds exactly when every non-blank row after row 0 has as many
      cells as there are services. */
  lemma LoadOkIff(rows: seq<Row>)
    ensures Load(rows).Ok? <==>
      forall i :: 0 < i < |rows| && !Blank(rows[i]) ==> |Cells(rows[i])| == ServiceCount(rows)
  {
    if |rows| > 0 {
      var n := ServiceCount(rows);
      var bank := BankOf(rows, |rows|);
      var columns := seq(n, j requires 0 <= j => Column(rows, |rows|, j));
      var uniform := forall i :: 0 < i < |rows| && !Blank(rows[i]) ==> |Cells(rows[i])| == n;
      if uniform {
        assert FirstOverwide(rows, n, 1).None?;
        forall j | 0 <= j < n ensures |columns[j]| == |bank| {
          ColumnLength(rows, |rows|, j);
          AllReachIff(rows, |rows|, j);
        }
        assert FirstInvalid(columns, |bank|, 0).None?;
      } else if FirstOverwide(rows, n, 1).None? {
        var i :| 0 < i < |rows| && !Blank(rows[i]) && |Cells(rows[i])| != n;
        var j := |Cells(rows[i])|;
        assert j < n;
        ColumnLength(rows, |rows|, j);
        AllReachIff(rows, |rows|, j);
        assert |columns[j]| != |bank|;
      }
    }
  }

  /** A short service is reported with the rendering of its row-0 cell and the
      name of the first station; the service is the first one that some later
      row leaves out, i.e. the narrowest later row's cell count. */
  lemma ShortServiceMessage(rows: seq<Row>)
    requires Load(rows).Err? && Load(rows).error.InvalidStopCount?
    ensures var e := Load(rows).error;
      && |rows| > 0 && !Blank(rows[0]) && e.stationName == Name(rows[0])
      && exists i :: 0 < i < |rows| && !Blank(rows[i])
           && |Cells(rows[i])| < |Cells(rows[0])|
           && e.vis == RawToTime(Cells(rows[0])[|Cells(rows[i])|]).vis
           && forall k :: 0 < k < |rows| && !Blank(rows[k]) ==> |Cells(rows[k])| >= |Cells(rows[i])|
  {
    var n := ServiceCount(rows);
    var bank := BankOf(rows, |rows|);
    var columns := seq(n, j requires 0 <= j => Column(rows, |rows|, j));
    assert FirstOverwide(rows, n, 1).None?;
    var j := FirstInvalid(columns, |bank|, 0).value;
    assert j < n;
    assert !Blank(rows[0]) && n == |Cells(rows[0])|;
    ColumnStartsWithRowZero(rows, |rows|, j);
    assert Load(rows).error == InvalidStopCount(columns[j][0].time.vis, bank[0].name);
    ShortestRowIsReported(rows, columns, bank, j);
  }

  lemma ShortestRowIsReported(rows: seq<Row>, columns: seq<seq<Cell>>, bank: seq<Station>, j: nat)
    requires |rows| > 0 && !Blank(rows[0]) && bank == BankOf(rows, |rows|)
    requires |columns| == |Cells(rows[0])|
    requires forall c :: 0 <= c < |columns| ==> columns[c] == Column(rows, |rows|, c)
    requires FirstInvalid(columns, |bank|, 0) == Some(j)
    ensures exists i :: 0 < i < |rows| && !Blank(rows[i]) && |Cells(rows[i])| == j
    ensures forall k :: 0 < k < |rows| && !Blank(rows[k]) ==> |Cells(rows[k])| >= j
  {
    ColumnLength(rows, |rows|, j);
    AllReachIff(rows, |rows|, j);
    var i :| 0 <= i < |rows| && !Blank(rows[i]) && j >= |Cells(rows[i])|;
    forall k | 0 < k < |rows| && !Blank(rows[k]) ensures |Cells(rows[k])| >= j {
      NoShorterRow(rows, columns, bank, j, k);
    }
  }

  /** No later row stops short of the first short service. */
  lemma NoShorterRow(rows: seq<Row>, columns: seq<seq<Cell>>, bank: seq<Station>, j: nat, k: nat)
    requires |rows| > 0 && !Blank(rows[0]) && bank == BankOf(rows, |rows|)
    requires |columns| == |Cells(rows[0])|
    requires forall c :: 0 <= c < |columns| ==> columns[c] == Column(rows, |rows|, c)
    requires FirstInvalid(columns, |bank|, 0) == Some(j)
    requires 0 < k < |rows| && !Blank(rows[k])
    ensures |Cells(rows[k])| >= j
  {
    var c := |Cells(rows[k])|;
    if c < j {
      assert |columns[c]| == |bank|;
      ColumnLength(rows, |rows|, c);
      AllReachIff(rows, |rows|, c);
      assert false;
    }
  }

  /** A row after row 0 with more cells than row 0 aborts the load at the first such row. */
  lemma OverwideRowAborts(rows: seq<Row>, i: nat)
    requires 0 < i < |rows| && !Blank(rows[i]) && |Cells(rows[i])| > ServiceCount(rows)
    requires forall k :: 0 < k < i && !Blank(rows[k]) ==> |Cells(rows[k])| <= ServiceCount(rows)
    ensures Load(rows) == Err(MissingService(i))
  {
    FirstOverwideIs(rows, ServiceCount(rows), i);
  }

  lemma FirstOverwideIs(rows: seq<Row>, n: nat, i: nat)
    requires 0 < i < |rows| && !Blank(rows[i]) && |Cells(rows[i])| > n
    requires forall k :: 0 < k < i && !Blank(rows[k]) ==> |Cells(rows[k])| <= n
    ensures FirstOverwide(rows, n, 1) == Some(i)
  {
    var r := FirstOverwide(rows, n, 1);
    assert r.Some? && r.value == i;
  }

  /** The parsed cells of one row appended to the services, as the inner
      `forEach` of `getData` does: row 0 creates a service per cell, a later
      row appends its `j`-th cell to service `j` and fails on a cell with no
      service. */
  method PushRowCells(services: seq<Service>, cells: seq<Cell>, firstRow: bool)
    returns (r: Option<seq<Service>>)
    ensures firstRow ==> r == Some(services + seq(|cells|, j requires 0 <= j < |cells| => Service([cells[j]], false)))
    ensures !firstRow ==> (r.None? <==> |cells| > |services|)
    ensures !firstRow && r.Some? ==> |r.value| == |services| && forall j :: 0 <= j < |services| ==>
      r.value[j] == services[j].(times := services[j].times + (if j < |cells| then [cells[j]] else []))
  {
    var acc := services;
    var serviceIndex := 0;
    while serviceIndex < |cells|
      invariant 0 <= serviceIndex <= |cells|
      invariant firstRow ==> acc == services + seq(serviceIndex, j requires 0 <= j < serviceIndex =>
                                      Service([cells[j]], false))
      invariant !firstRow ==> |acc| == |services| && serviceIndex <= |services|
      invariant !firstRow ==> forall j :: 0 <= j < |services| ==>
        acc[j] == services[j].(times := services[j].times + (if j < serviceIndex then [cells[j]] else []))
    {
      var time := cells[serviceIndex];
      if firstRow {
        acc := acc + [Service([time], false)];
      } else {
        if serviceIndex >= |acc| {
          return None;
        }
        acc := acc[serviceIndex := acc[serviceIndex].(times := acc[serviceIndex].times + [time])];
      }
      serviceIndex := serviceIndex + 1;
    }
    return Some(acc);
  }

  lemma ColumnStep(rows: seq<Row>, k: nat, j: nat)
    requires k < |rows|
    ensures Column(rows, k + 1, j) == Column(rows, k, j)
      + (if !Blank(rows[k]) && j < |Cells(rows[k])| then [FreshCell(RawToTime(Cells(rows[k])[j]))] else [])
    ensures k == 0 ==> Column(rows, k, j) == []
  {
    if !Blank(rows[k]) && j < |Cells(rows[k])| {
      ParsedAppend(RawColumn(rows, k, j), Cells(rows[k])[j]);
    }
  }

  lemma ParsedAppend(raws: seq<string>, raw: string)
    ensures Parsed(raws + [raw]) == Parsed(raws) + [FreshCell(RawToTime(raw))]
  {
    assert |Parsed(raws + [raw])| == |Parsed(raws) + [FreshCell(RawToTime(raw))]|;
  }

  /** The services after the first `k` rows: one per cell of row 0, each
      holding its column so far. */
  predicate Assembled(rows: seq<Row>, k: nat, services: seq<Service>)
    requires k <= |rows|
  {
    && |services| == (if k == 0 then 0 else ServiceCount(rows))
    && forall j :: 0 <= j < |services| ==> services[j] == Service(Column(rows, k, j), false)
  }

  /** Pushing the cells of a non-blank row `k` extends every column by that row. */
  lemma PushedRow(rows: seq<Row>, k: nat, services: seq<Service>, cells: seq<Cell>, pushed: seq<Service>)
    requires k < |rows| && !Blank(rows[k]) && Assembled(rows, k, services)
    requires cells == Parsed(Cells(rows[k]))
    requires k == 0 ==> pushed == services + seq(|cells|, j requires 0 <= j < |cells| => Service([cells[j]], false))
    requires k > 0 ==> |pushed| == |services| && forall j :: 0 <= j < |services| ==>
      pushed[j] == services[j].(times := services[j].times + (if j < |cells| then [cells[j]] else []))
    ensures Assembled(rows, k + 1, pushed)
  {
    forall j | 0 <= j < |pushed| ensures pushed[j] == Service(Column(rows, k + 1, j), false) {
      ColumnStep(rows, k, j);
      if k == 0 {
        PushedFirstCell(rows, services, cells, pushed, j);
      } else {
        PushedLaterCell(rows, k, services, cells, pushed, j);
      }
    }
  }

  lemma PushedFirstCell(rows: seq<Row>, services: seq<Service>, cells: seq<Cell>, pushed: seq<Service>, j: nat)
    requires 0 < |rows| && !Blank(rows[0]) && services == []
    requires cells == Parsed(Cells(rows[0]))
    requires pushed == seq(|cells|, j requires 0 <= j < |cells| => Service([cells[j]], false))
    requires j < |pushed|
    requires Column(rows, 1, j) == Column(rows, 0, j) + [FreshCell(RawToTime(Cells(rows[0])[j]))]
    requires Column(rows, 0, j) == []
    ensures pushed[j] == Service(Column(rows, 1, j), false)
  {}

  lemma PushedLaterCell(rows: seq<Row>, k: nat, services: seq<Service>, cells: seq<Cell>, pushed: seq<Service>, j: nat)
    requires 0 < k < |rows| && !Blank(rows[k])
    requires cells == Parsed(Cells(rows[k]))
    requires j < |services| == |pushed| && services[j] == Service(Column(rows, k, j), false)
    requires pushed[j] == services[j].(times := services[j].times + (if j < |cells| then [cells[j]] else []))
    requires Column(rows, k + 1, j) == Column(rows, k, j)
      + (if j < |Cells(rows[k])| then [FreshCell(RawToTime(Cells(rows[k])[j]))] else [])
    ensures pushed[j] == Service(Column(rows, k + 1, j), false)
  {}

  /** A blank row changes no column. */
  lemma SkippedRow(rows: seq<Row>, k: nat, services: seq<Service>)
    requires k < |rows| && Blank(rows[k]) && Assembled(rows, k, services) && k > 0
    ensures Assembled(rows, k + 1, services)
  {
    forall j | 0 <= j < |services| ensures services[j] == Service(Column(rows, k + 1, j), false) {
      ColumnStep(rows, k, j);
    }
  }

  /** The row walk's state after the first `k` rows: the bank and the
      services so far, and no row after row 0 wider than row 0. */
  predicate Walked(rows: seq<Row>, k: nat, bank: seq<Station>, services: seq<Service>)
    requires k <= |rows|
  {
    && bank == BankOf(rows, k)
    && Assembled(rows, k, services)
    && forall i :: 1 <= i < k && !Blank(rows[i]) ==> |Cells(rows[i])| <= ServiceCount(rows)
  }

  /** The row callback of `getData` for row `k`: skip a blank row, otherwise
      add its station and push its cells, failing on a cell with no service. */
  method AddRow(rows: seq<Row>, k: nat, bank: seq<Station>, services: seq<Service>)
    returns (failed: bool, bank': seq<Station>, services': seq<Service>)
    requires k < |rows| && Walked(rows, k, bank, services)
    ensures failed ==> FirstOverwide(rows, ServiceCount(rows), 1) == Some(k)
    ensures !failed ==> Walked(rows, k + 1, bank', services')
  {
    if !Blank(rows[k]) {
      failed, bank', services' := AddStationRow(rows, k, bank, services);
    } else {
      BankStep(rows, k);
      failed, bank', services' := false, bank, services;
      if k == 0 {
        assert Assembled(rows, 1, services);
      } else {
        SkippedRow(rows, k, services);
      }
    }
  }

  /** The callback on a row that is not blank: its station, then its cells. */
  method AddStationRow(rows: seq<Row>, k: nat, bank: seq<Station>, services: seq<Service>)
    returns (failed: bool, bank': seq<Station>, services': seq<Service>)
    requires k < |rows| && !Blank(rows[k]) && Walked(rows, k, bank, services)
    ensures failed ==> FirstOverwide(rows, ServiceCount(rows), 1) == Some(k)
    ensures !failed ==> Walked(rows, k + 1, bank', services')
  {
    var row := rows[k];
    BankStep(rows, k);
    failed, bank', services' := false, bank + [Station(k, Name(row), StationType(row))], services;
    var cells := Parsed(Cells(row));
    var pushed := PushRowCells(services, cells, k == 0);
    if pushed.None? {
      assert k > 0 && |Cells(row)| > ServiceCount(rows);
      FirstOverwideIs(rows, ServiceCount(rows), k);
      failed := true;
      return;
    }
    PushedRow(rows, k, services, cells, pushed.value);
    services' := pushed.value;
    assert k > 0 ==> |Cells(row)| <= ServiceCount(rows);
    WalkedStep(rows, k, bank, services, bank', services');
  }

  /** A non-blank row no wider than row 0 extends the walk. */
  lemma WalkedStep(rows: seq<Row>, k: nat, bank: seq<Station>, services: seq<Service>,
                   bank': seq<Station>, services': seq<Service>)
    requires k < |rows| && !Blank(rows[k]) && Walked(rows, k, bank, services)
    requires bank' == bank + [Station(k, Name(rows[k]), StationType(rows[k]))]
    requires Assembled(rows, k + 1, services')
    requires k > 0 ==> |Cells(rows[k])| <= ServiceCount(rows)
    ensures Walked(rows, k + 1, bank', services')
  {
    BankStep(rows, k);
  }

  /** The row walk of `getData`: the bank and the services before the width
      check, or the row where a cell has no service. */
  method AssembleRows(rows: seq<Row>) returns (r: Result<Loaded, IngestError>)
    requires |rows| > 0
    ensures r.Err? <==> FirstOverwide(rows, ServiceCount(rows), 1).Some?
    ensures r.Err? ==> r.error == MissingService(FirstOverwide(rows, ServiceCount(rows), 1).value)
    ensures r.Ok? ==> r.value.bank == BankOf(rows, |rows|)
    ensures r.Ok? ==> |r.value.services| == ServiceCount(rows)
    ensures r.Ok? ==> forall j :: 0 <= j < ServiceCount(rows) ==>
      r.value.services[j] == Service(Column(rows, |rows|, j), false)
  {
    var bank: seq<Station> := [];
    var services: seq<Service> := [];
    var rowIndex := 0;
    while rowIndex < |rows|
      invariant 0 <= rowIndex <= |rows|
      invariant Walked(rows, rowIndex, bank, services)
    {
      var failed;
      failed, bank, services := AddRow(rows, rowIndex, bank, services);
      if failed {
        return Err(MissingService(rowIndex));
      }
      rowIndex := rowIndex + 1;
    }
    assert FirstOverwide(rows, ServiceCount(rows), 1).None?;
    return Ok(Loaded(bank, services));
  }

  /** `getData` after the file has been split into rows and fields. */
  method GetData(rows: seq<Row>) returns (r: Result<Loaded, IngestError>)
    ensures r == Load(rows)
  {
    if |rows| == 0 {
      return Ok(Loaded([], []));
    }
    r := AssembleRows(rows);
    if r.Err? {
      return;
    }
    var bank, services := r.value.bank, r.value.services;
    ghost var n := ServiceCount(rows);
    ghost var columns := seq(n, j requires 0 <= j => Column(rows, |rows|, j));
    var invalid := 0;
    while invalid < |services| && |services[invalid].times| == |bank|
      invariant 0 <= invalid <= |services|
      invariant FirstInvalid(columns, |bank|, 0) == FirstInvalid(columns, |bank|, invalid)
    {
      invalid := invalid + 1;
    }
    if invalid < |services| {
      var times := services[invalid].times;
      ColumnStartsWithRowZero(rows, |rows|, invalid);
      var stopIndex := FindVisible(times, 0);
      return Err(InvalidStopCount(times[stopIndex].time.vis, bank[stopIndex].name));
    }
    assert services == seq(n, j requires 0 <= j < n => Service(columns[j], false));
  }
}
