/** The station loader of src/utils.ts: `parseBoolean` and `parseCSVData`.
    The text is trimmed and split into lines; the first line fixes the
    number of columns; every other non-blank line is split into trimmed,
    quote-aware fields and kept as a row when it has that many fields; the
    kept rows are grouped by station id into stations in order of first
    appearance. `num` stands for `parseFloat(text) || 0`, i.e. the number a
    column parses to, with 0 for text that is not a number. */
module Utils {
  import opened Types
  import opened JsString
  import opened CsvFields

  /** `parseBoolean`: only the exact text "TRUE" is true. */
  function ParseBoolean(value: string): bool {
    value == "TRUE"
  }

  lemma ParseBooleanOnlyExactTrue(value: string)
    ensures ParseBoolean(value) <==> value == "TRUE"
    ensures ParseBoolean("TRUE")
    ensures !ParseBoolean("true") && !ParseBoolean("True") && !ParseBoolean("")
  {
  }

  // ---------------------------------------------------------------------
  // Lines to rows
  // ---------------------------------------------------------------------

  /** `values[k] || ''`: a missing column reads as empty text. */
  function FieldOr(values: seq<string>, k: nat): string {
    if k < |values| then values[k] else ""
  }

  /** The fourteen columns of a row, in the order of the CSV header. */
  function Columns(row: CsvRow): (cols: seq<string>)
    ensures |cols| == 14
  {
    [row.region, row.stationName, row.promotionPrice, row.promoStatId, row.promoChgerId,
     row.chargerType, row.speed, row.address, row.locationDetail, row.lati, row.longi,
     row.firstFloor, row.isFast, row.parkingFree]
  }

  /** The row object built from the values of one line: column k of the row
      is value k, or empty text when the line has no value k. */
  function ToRow(values: seq<string>): (row: CsvRow)
    ensures forall k :: 0 <= k < 14 ==> Columns(row)[k] == FieldOr(values, k)
  {
    CsvRow(
      region := FieldOr(values, 0),
      stationName := FieldOr(values, 1),
      promotionPrice := FieldOr(values, 2),
      promoStatId := FieldOr(values, 3),
      promoChgerId := FieldOr(values, 4),
      chargerType := FieldOr(values, 5),
      speed := FieldOr(values, 6),
      address := FieldOr(values, 7),
      locationDetail := FieldOr(values, 8),
      lati := FieldOr(values, 9),
      longi := FieldOr(values, 10),
      firstFloor := FieldOr(values, 11),
      isFast := FieldOr(values, 12),
      parkingFree := FieldOr(values, 13))
  }

  /** Building a row and listing its columns are inverse: a line with one
      value per column gives those values back, and a row rebuilt from its
      columns is the same row. */
  lemma ToRowColumns(values: seq<string>, row: CsvRow)
    ensures |values| == 14 ==> Columns(ToRow(values)) == values
    ensures ToRow(Columns(row)) == row
  {
    if |values| == 14 {
      var cols := Columns(ToRow(values));
      assert forall k :: 0 <= k < 14 ==> cols[k] == values[k];
    }
  }

  /** A data line yields a row: it is not blank once trimmed and has as many
      fields as the header has columns. */
  predicate IsDataLine(line: string, headerCount: nat) {
    Trim(line) != "" && |Fields(Trim(line))| == headerCount
  }

  function LineRow(line: string): CsvRow {
    ToRow(Fields(Trim(line)))
  }

  /** The rows of the data lines `lines`, in line order. */
  function KeptRows(lines: seq<string>, headerCount: nat): seq<CsvRow> {
    FilterMap(lines, DataLineTest(headerCount), LineRow)
  }

  function DataLineTest(headerCount: nat): string -> bool {
    line => IsDataLine(line, headerCount)
  }

  /** `xs` filtered by `keep` and mapped by `f`, order kept. */
  function FilterMap<T, U>(xs: seq<T>, keep: T -> bool, f: T -> U): seq<U> {
    if xs == [] then []
    else
      var ys := FilterMap(xs[..|xs| - 1], keep, f);
      var x := xs[|xs| - 1];
      if keep(x) then ys + [f(x)] else ys
  }

  /** Indices of the elements of `xs` that `keep` accepts, in increasing order. */
  function KeptIndices<T>(xs: seq<T>, keep: T -> bool): (idx: seq<nat>)
    ensures forall j :: 0 <= j < |idx| ==> idx[j] < |xs| && keep(xs[idx[j]])
    ensures forall a, b :: 0 <= a < b < |idx| ==> idx[a] < idx[b]
    ensures forall i :: 0 <= i < |xs| && keep(xs[i]) ==> i in idx
  {
    if xs == [] then []
    else
      var pre := xs[..|xs| - 1];
      var idx := KeptIndices(pre, keep);
      assert forall j :: 0 <= j < |idx| ==> xs[idx[j]] == pre[idx[j]];
      if keep(xs[|xs| - 1]) then idx + [|xs| - 1] else idx
  }

  /** FilterMap yields exactly one `f`-image per accepted element, in order. */
  lemma {:induction false} FilterMapAtKeptIndices<T, U>(xs: seq<T>, keep: T -> bool, f: T -> U)
    ensures var idx := KeptIndices(xs, keep);
      var ys := FilterMap(xs, keep, f);
      |ys| == |idx| && forall j :: 0 <= j < |idx| ==> ys[j] == f(xs[idx[j]])
  {
    if xs != [] {
      var pre := xs[..|xs| - 1];
      FilterMapAtKeptIndices(pre, keep, f);
      var idx, ys := KeptIndices(pre, keep), FilterMap(pre, keep, f);
      var idx', ys' := KeptIndices(xs, keep), FilterMap(xs, keep, f);
      var last := xs[|xs| - 1];
      if keep(last) {
        assert idx' == idx + [|xs| - 1];
        assert ys' == ys + [f(last)];
      } else {
        assert idx' == idx && ys' == ys;
      }
      forall j | 0 <= j < |idx'|
        ensures ys'[j] == f(xs[idx'[j]])
      {
        if j < |idx| {
          assert xs[idx[j]] == pre[idx[j]];
        }
      }
    }
  }

  /** The row loop: every line after the header is trimmed, skipped when
      blank, split into fields, and pushed as a row when its field count
      equals the header's. */
  method ParseRows(lines: seq<string>, headerCount: nat) returns (rows: seq<CsvRow>)
    requires |lines| >= 1
    ensures rows == KeptRows(lines[1..], headerCount)
  {
    rows := [];
    for i := 1 to |lines|
      invariant rows == KeptRows(lines[1..i], headerCount)
    {
      assert lines[1..i + 1][..i - 1] == lines[1..i];
      assert lines[1..i + 1][i - 1] == lines[i];
      var line := Trim(lines[i]);
      if line == "" {
        assert !IsDataLine(lines[i], headerCount);
        continue;
      }
      var values := SplitFields(line);
      assert IsDataLine(lines[i], headerCount) <==> |values| == headerCount;
      if |values| == headerCount {
        assert LineRow(lines[i]) == ToRow(values);
        rows := rows + [ToRow(values)];
      }
    }
    assert lines[1..|lines|] == lines[1..];
  }

  /** The kept rows are the rows of the data lines, one each, in line
      order: a blank line or a line of the wrong width gives none. */
  lemma KeptRowsAreDataLines(lines: seq<string>, headerCount: nat)
    ensures var idx := KeptIndices(lines, DataLineTest(headerCount));
      var rows := KeptRows(lines, headerCount);
      && |rows| == |idx|
      && (forall a, b :: 0 <= a < b < |idx| ==> idx[a] < idx[b])
      && (forall i :: 0 <= i < |lines| ==> (i in idx <==> IsDataLine(lines[i], headerCount)))
      && (forall j :: 0 <= j < |idx| ==> rows[j] == LineRow(lines[idx[j]]))
  {
    FilterMapAtKeptIndices(lines, DataLineTest(headerCount), LineRow);
  }

  // ---------------------------------------------------------------------
  // Rows to stations
  // ---------------------------------------------------------------------

  /** Some row carries station id `id`. */
  predicate HasRowFor(rows: seq<CsvRow>, id: string) {
    exists k :: 0 <= k < |rows| && rows[k].promoStatId == id
  }

  /** The keys of the station map in insertion order: each non-empty
      station id of `rows`, once, in order of first appearance. */
  function StationIds(rows: seq<CsvRow>): (ids: seq<string>)
    ensures forall a, b :: 0 <= a < b < |ids| ==> ids[a] != ids[b]
    ensures forall k :: 0 <= k < |ids| ==> ids[k] != "" && HasRowFor(rows, ids[k])
  {
    if rows == [] then []
    else
      var pre := rows[..|rows| - 1];
      var ids := StationIds(pre);
      var id := rows[|rows| - 1].promoStatId;
      var r := if id == "" || id in ids then ids else ids + [id];
      assert forall k :: 0 <= k < |r| ==> HasRowFor(rows, r[k]) by {
        forall k | 0 <= k < |r|
          ensures HasRowFor(rows, r[k])
        {
          if k < |ids| {
            var i :| 0 <= i < |pre| && pre[i].promoStatId == ids[k];
            assert rows[i] == pre[i];
          } else {
            assert rows[|rows| - 1].promoStatId == r[k];
          }
        }
      }
      r
  }

  /** Every non-empty station id of `rows` is among the station ids. */
  lemma {:induction false} StationIdsComplete(rows: seq<CsvRow>, x: string)
    requires x != "" && HasRowFor(rows, x)
    ensures x in StationIds(rows)
  {
    var pre := rows[..|rows| - 1];
    if rows[|rows| - 1].promoStatId != x {
      var i :| 0 <= i < |rows| && rows[i].promoStatId == x;
      assert pre[i] == rows[i];
      StationIdsComplete(pre, x);
    }
  }

  /** Membership in the station ids, both ways. */
  lemma StationIdsMember(rows: seq<CsvRow>, x: string)
    ensures x in StationIds(rows) <==> x != "" && HasRowFor(rows, x)
  {
    if x != "" && HasRowFor(rows, x) {
      StationIdsComplete(rows, x);
    }
  }

  /** One more row adds its id at the end of the station ids when the id is
      non-empty and new. */
  lemma StationIdsAppend(rows: seq<CsvRow>, row: CsvRow)
    ensures var ids := StationIds(rows);
      var id := row.promoStatId;
      StationIds(rows + [row]) == if id == "" || id in ids then ids else ids + [id]
  {
    assert (rows + [row])[..|rows|] == rows;
  }

  /** The rows of station `id`, in row order. */
  function RowsOf(rows: seq<CsvRow>, id: string): (r: seq<CsvRow>)
    ensures forall k :: 0 <= k < |r| ==> r[k].promoStatId == id
    ensures r == [] <==> !HasRowFor(rows, id)
  {
    if rows == [] then []
    else
      var pre := rows[..|rows| - 1];
      var row := rows[|rows| - 1];
      assert HasRowFor(pre, id) ==> HasRowFor(rows, id) by {
        if HasRowFor(pre, id) {
          var k :| 0 <= k < |pre| && pre[k].promoStatId == id;
          assert rows[k] == pre[k];
        }
      }
      if row.promoStatId == id then RowsOf(pre, id) + [row] else RowsOf(pre, id)
  }

  /** The charger a row contributes (src/utils.ts, lines 104-112). */
  function ChargerOf(row: CsvRow, num: string -> real): Charger {
    Charger(row.promoChgerId, row.chargerType, num(row.speed), ParseBoolean(row.isFast))
  }

  function ChargersOf(rows: seq<CsvRow>, num: string -> real): (cs: seq<Charger>)
    ensures |cs| == |rows|
    ensures forall k :: 0 <= k < |cs| ==> cs[k] == ChargerOf(rows[k], num)
  {
    seq(|rows|, k requires 0 <= k < |rows| => ChargerOf(rows[k], num))
  }

  function PricesOf(rows: seq<CsvRow>, num: string -> real): (ps: seq<real>)
    ensures |ps| == |rows|
    ensures forall k :: 0 <= k < |ps| ==> ps[k] == num(rows[k].promotionPrice)
  {
    seq(|rows|, k requires 0 <= k < |rows| => num(rows[k].promotionPrice))
  }

  /** The running minimum price: it starts at the first row's price and a
      later price replaces it when that price is positive and either the
      minimum so far is 0 or the price is below it. */
  function MinPriceFold(prices: seq<real>): real
    requires |prices| >= 1
  {
    if |prices| == 1 then prices[0]
    else
      var m := MinPriceFold(prices[..|prices| - 1]);
      var p := prices[|prices| - 1];
      if p > 0.0 && (m == 0.0 || p < m) then p else m
  }

  /** Some charger of `cs` is fast. */
  predicate AnyFast(cs: seq<Charger>) {
    exists k :: 0 <= k < |cs| && cs[k].isFast
  }

  /** The record created for the first row of a station
      (src/utils.ts, lines 82-100). */
  function NewStation(row: CsvRow, num: string -> real): (s: ChargerStation)
    ensures s.id == row.promoStatId
    ensures s.chargers == [] && !s.hasFastCharger && s.minPrice == s.promotionPrice
  {
    var price := num(row.promotionPrice);
    ChargerStation(
      id := row.promoStatId,
      stationName := row.stationName,
      region := row.region,
      address := row.address,
      locationDetail := row.locationDetail,
      latitude := num(row.lati),
      longitude := num(row.longi),
      promotionPrice := price,
      firstFloor := ParseBoolean(row.firstFloor),
      parkingFree := ParseBoolean(row.parkingFree),
      chargers := [],
      hasFastCharger := false,
      minPrice := price)
  }

  /** The station grouped from all rows with id `id`: descriptive fields
      from its first row, one charger per row in row order, the fast flag
      set exactly when some charger is fast, and the running minimum of the
      row prices. */
  function StationFor(rows: seq<CsvRow>, id: string, num: string -> real): ChargerStation
    requires HasRowFor(rows, id)
  {
    var rs := RowsOf(rows, id);
    var cs := ChargersOf(rs, num);
    NewStation(rs[0], num).(
      chargers := cs,
      hasFastCharger := AnyFast(cs),
      minPrice := MinPriceFold(PricesOf(rs, num)))
  }

  /** The stations the loader returns, in the station map's order. */
  function Group(rows: seq<CsvRow>, num: string -> real): seq<ChargerStation> {
    var ids := StationIds(rows);
    seq(|ids|, k requires 0 <= k < |ids| => StationFor(rows, ids[k], num))
  }

  /** A station record after one more row of it: the row's charger is
      appended, the fast flag is raised by a fast charger, and a positive
      price replaces the minimum when the minimum is 0 or larger
      (src/utils.ts, lines 103-122). */
  function AddRow(station: ChargerStation, row: CsvRow, num: string -> real): (r: ChargerStation)
    ensures r.(chargers := station.chargers, hasFastCharger := station.hasFastCharger, minPrice := station.minPrice) == station
    ensures |r.chargers| == |station.chargers| + 1 && r.chargers[..|station.chargers|] == station.chargers
    ensures r.hasFastCharger <==> station.hasFastCharger || r.chargers[|station.chargers|].isFast
    ensures r.minPrice == station.minPrice || r.minPrice == num(row.promotionPrice)
    ensures station.minPrice > 0.0 ==> 0.0 < r.minPrice <= station.minPrice
    ensures num(row.promotionPrice) > 0.0 && station.minPrice >= 0.0 ==> 0.0 < r.minPrice <= num(row.promotionPrice)
    ensures station.minPrice < 0.0 ==> r.minPrice == station.minPrice
    ensures num(row.promotionPrice) <= 0.0 ==> r.minPrice == station.minPrice
    ensures r.chargers[|station.chargers|] == ChargerOf(row, num)
  {
    var c := ChargerOf(row, num);
    var price := num(row.promotionPrice);
    station.(
      chargers := station.chargers + [c],
      hasFastCharger := station.hasFastCharger || c.isFast,
      minPrice := if price > 0.0 && (station.minPrice == 0.0 || price < station.minPrice) then price else station.minPrice)
  }

  /** Adding a row leaves the rows of every other station unchanged and
      appends the row to its own station's rows. */
  lemma RowsOfAppend(rows: seq<CsvRow>, row: CsvRow, id: string)
    ensures RowsOf(rows + [row], id) == if row.promoStatId == id then RowsOf(rows, id) + [row] else RowsOf(rows, id)
  {
    assert (rows + [row])[..|rows|] == rows;
  }

  /** Adding a row with a non-empty id updates its station exactly as the
      loop body does: the base record (a fresh one for a new id) gets the
      row's charger appended, its fast flag or-ed with the row's, and its
      minimum price replaced by a smaller positive price. */
  lemma StationForAppend(rows: seq<CsvRow>, row: CsvRow, num: string -> real)
    requires row.promoStatId != ""
    ensures HasRowFor(rows + [row], row.promoStatId)
    ensures
      var id := row.promoStatId;
      var base := if HasRowFor(rows, id) then StationFor(rows, id, num) else NewStation(row, num);
      StationFor(rows + [row], id, num) == AddRow(base, row, num)
  {
    var id := row.promoStatId;
    assert (rows + [row])[|rows|] == row;
    RowsOfAppend(rows, row, id);
    var rs := RowsOf(rows, id);
    var c := ChargerOf(row, num);
    ChargersAppend(rs, row, num);
    AnyFastAppend(ChargersOf(rs, num), c);
    if rs != [] {
      PricesAppend(rs, row, num);
      assert (rs + [row])[0] == rs[0];
    } else {
      assert rs + [row] == [row];
    }
  }

  lemma ChargersAppend(rs: seq<CsvRow>, row: CsvRow, num: string -> real)
    ensures ChargersOf(rs + [row], num) == ChargersOf(rs, num) + [ChargerOf(row, num)]
  {
  }

  lemma AnyFastAppend(cs: seq<Charger>, c: Charger)
    ensures AnyFast(cs + [c]) <==> AnyFast(cs) || c.isFast
  {
    if AnyFast(cs) {
      var k :| 0 <= k < |cs| && cs[k].isFast;
      assert (cs + [c])[k] == cs[k];
    }
    assert (cs + [c])[|cs|] == c;
  }

  lemma PricesAppend(rs: seq<CsvRow>, row: CsvRow, num: string -> real)
    requires rs != []
    ensures var p := num(row.promotionPrice);
      var m := MinPriceFold(PricesOf(rs, num));
      MinPriceFold(PricesOf(rs + [row], num)) == if p > 0.0 && (m == 0.0 || p < m) then p else m
  {
    assert PricesOf(rs + [row], num)[..|rs|] == PricesOf(rs, num);
  }

  /** Adding a row leaves every station with another id unchanged. */
  lemma StationForOther(rows: seq<CsvRow>, row: CsvRow, id: string, num: string -> real)
    requires HasRowFor(rows, id) && row.promoStatId != id
    ensures HasRowFor(rows + [row], id)
    ensures StationFor(rows + [row], id, num) == StationFor(rows, id, num)
  {
    RowsOfAppend(rows, row, id);
    var k :| 0 <= k < |rows| && rows[k].promoStatId == id;
    assert (rows + [row])[k] == rows[k];
  }

  /** Every record of `m` is the station grouped from `rows` under its key. */
  predicate Matches(m: map<string, ChargerStation>, rows: seq<CsvRow>, num: string -> real) {
    forall x :: x in m ==> HasRowFor(rows, x) && m[x] == StationFor(rows, x, num)
  }

  /** The state of the grouping loop after the rows `seen`: the map's keys
      in insertion order are the station ids, and every record is the
      station grouped from those rows. */
  ghost predicate Grouped(m: map<string, ChargerStation>, order: seq<string>, seen: seq<CsvRow>, num: string -> real) {
    && order == StationIds(seen)
    && (forall x :: x in m <==> x in order)
    && Matches(m, seen, num)
  }

  /** A row without a station id leaves the map and the order as they are. */
  lemma GroupSkip(m: map<string, ChargerStation>, order: seq<string>, seen: seq<CsvRow>, row: CsvRow, num: string -> real)
    requires Grouped(m, order, seen, num)
    requires row.promoStatId == ""
    ensures Grouped(m, order, seen + [row], num)
  {
    StationIdsAppend(seen, row);
    forall x | x in m
      ensures HasRowFor(seen + [row], x) && m[x] == StationFor(seen + [row], x, num)
    {
      StationForOther(seen, row, x, num);
    }
  }

  /** A row with a station id folds into its record, which is created and
      appended to the order when the id is new. */
  lemma GroupAdd(m: map<string, ChargerStation>, order: seq<string>, seen: seq<CsvRow>, row: CsvRow, num: string -> real)
    requires Grouped(m, order, seen, num)
    requires row.promoStatId != ""
    ensures var id := row.promoStatId;
      var base := if id in m then m[id] else NewStation(row, num);
      Grouped(m[id := AddRow(base, row, num)], if id in m then order else order + [id], seen + [row], num)
  {
    var id := row.promoStatId;
    var base := if id in m then m[id] else NewStation(row, num);
    var m' := m[id := AddRow(base, row, num)];
    var order' := if id in m then order else order + [id];
    StationIdsAppend(seen, row);
    StationIdsMember(seen, id);
    KeysAdd(m, order, id, AddRow(base, row, num));
    MatchesAdd(m, seen, row, num);
    assert Matches(m', seen + [row], num);
    assert order' == StationIds(seen + [row]);
  }

  /** The same step as the loop takes it: `m1` and `order1` are the map and
      the order once the record of the row's id exists, and `station` is
      that record after the row. */
  lemma GroupStep(m: map<string, ChargerStation>, order: seq<string>, seen: seq<CsvRow>, row: CsvRow, num: string -> real,
                  m1: map<string, ChargerStation>, order1: seq<string>, station: ChargerStation)
    requires Grouped(m, order, seen, num)
    requires row.promoStatId != ""
    requires if row.promoStatId in m then m1 == m && order1 == order
      else m1 == m[row.promoStatId := NewStation(row, num)] && order1 == order + [row.promoStatId]
    requires station == AddRow(m1[row.promoStatId], row, num)
    ensures Grouped(m1[row.promoStatId := station], order1, seen + [row], num)
  {
    var id := row.promoStatId;
    if id !in m {
      UpdateTwice(m, id, NewStation(row, num), station);
    }
    GroupAdd(m, order, seen, row, num);
  }

  /** A second update of a key overrides the first. */
  lemma UpdateTwice(m: map<string, ChargerStation>, id: string, first: ChargerStation, second: ChargerStation)
    ensures m[id := first][id := second] == m[id := second]
  {
  }

  /** Setting a key keeps the keys equal to the order when a new key is
      appended to the order. */
  lemma KeysAdd(m: map<string, ChargerStation>, order: seq<string>, id: string, station: ChargerStation)
    requires forall x :: x in m <==> x in order
    ensures var m', order' := m[id := station], if id in m then order else order + [id];
      forall x :: x in m' <==> x in order'
  {
  }

  /** Folding a row into its station's record keeps every record equal to
      the grouped station. */
  lemma MatchesAdd(m: map<string, ChargerStation>, seen: seq<CsvRow>, row: CsvRow, num: string -> real)
    requires Matches(m, seen, num)
    requires row.promoStatId != ""
    requires row.promoStatId in m <==> HasRowFor(seen, row.promoStatId)
    ensures var id := row.promoStatId;
      var base := if id in m then m[id] else NewStation(row, num);
      Matches(m[id := AddRow(base, row, num)], seen + [row], num)
  {
    var id := row.promoStatId;
    StationForAppend(seen, row, num);
    MatchesOthers(m, seen, row, num);
  }

  /** A row leaves the records of all other stations matching. */
  lemma MatchesOthers(m: map<string, ChargerStation>, seen: seq<CsvRow>, row: CsvRow, num: string -> real)
    requires Matches(m, seen, num)
    ensures forall x :: x in m && x != row.promoStatId ==>
      HasRowFor(seen + [row], x) && m[x] == StationFor(seen + [row], x, num)
  {
    forall x | x in m && x != row.promoStatId
      ensures HasRowFor(seen + [row], x) && m[x] == StationFor(seen + [row], x, num)
    {
      StationForOther(seen, row, x, num);
    }
  }

  /** The grouping loop over the kept rows, filling an insertion-ordered
      map from station id to station record. */
  method GroupStations(rows: seq<CsvRow>, num: string -> real) returns (stations: seq<ChargerStation>)
    ensures stations == Group(rows, num)
  {
    var order: seq<string> := [];
    var stationMap: map<string, ChargerStation> := map[];
    ghost var seen: seq<CsvRow> := [];
    for i := 0 to |rows|
      invariant seen == rows[..i]
      invariant Grouped(stationMap, order, seen, num)
    {
      var row := rows[i];
      assert rows[..i + 1] == seen + [row];
      var statId := row.promoStatId;
      if statId == "" {
        GroupSkip(stationMap, order, seen, row, num);
        seen := seen + [row];
        continue;
      }
      ghost var m0, order0 := stationMap, order;
      if statId !in stationMap {
        stationMap := stationMap[statId := NewStation(row, num)];
        order := order + [statId];
      }
      var station := AddCharger(stationMap[statId], row, num);
      GroupStep(m0, order0, seen, row, num, stationMap, order, station);
      stationMap := stationMap[statId := station];
      seen := seen + [row];
    }
    assert rows[..|rows|] == rows;
    stations := seq(|order|, k requires 0 <= k < |order| => stationMap[order[k]]);
    GroupedList(stationMap, order, rows, num, stations);
  }

  /** The in-place update of a station record by one of its rows: push the
      charger, raise the fast flag for a fast charger, and lower the
      minimum price to a smaller positive price (a minimum of 0 counts as
      unset). */
  method AddCharger(station: ChargerStation, row: CsvRow, num: string -> real) returns (updated: ChargerStation)
    ensures updated == AddRow(station, row, num)
  {
    updated := station;
    var speed := num(row.speed);
    var isFast := ParseBoolean(row.isFast);
    updated := updated.(chargers := updated.chargers + [Charger(row.promoChgerId, row.chargerType, speed, isFast)]);
    if isFast {
      updated := updated.(hasFastCharger := true);
    }
    var price := num(row.promotionPrice);
    if price > 0.0 && (updated.minPrice == 0.0 || price < updated.minPrice) {
      updated := updated.(minPrice := price);
    }
  }

  /** Listing the records of the final map in insertion order gives the
      grouped stations. */
  lemma GroupedList(m: map<string, ChargerStation>, order: seq<string>, rows: seq<CsvRow>, num: string -> real, stations: seq<ChargerStation>)
    requires Grouped(m, order, rows, num)
    requires |stations| == |order|
    requires forall k :: 0 <= k < |stations| ==> order[k] in m && stations[k] == m[order[k]]
    ensures stations == Group(rows, num)
  {
  }

  /** One station per distinct non-empty id, no id twice, each station
      carrying the id it was grouped under. */
  lemma StationsOnePerId(rows: seq<CsvRow>, num: string -> real)
    ensures var g := Group(rows, num);
      && (forall a, b :: 0 <= a < b < |g| ==> g[a].id != g[b].id)
      && (forall x :: (exists k :: 0 <= k < |g| && g[k].id == x) <==> x != "" && HasRowFor(rows, x))
  {
    var g := Group(rows, num);
    var ids := StationIds(rows);
    forall k | 0 <= k < |g|
      ensures g[k].id == ids[k]
    {
      assert RowsOf(rows, ids[k])[0].promoStatId == ids[k];
    }
    forall x | x != "" && HasRowFor(rows, x)
      ensures exists k :: 0 <= k < |g| && g[k].id == x
    {
      StationIdsComplete(rows, x);
      var k :| 0 <= k < |ids| && ids[k] == x;
      assert g[k].id == x;
    }
  }

  /** Index of the first row with station id `id`. */
  function FirstIndex(rows: seq<CsvRow>, id: string): (i: nat)
    requires HasRowFor(rows, id)
    ensures i < |rows| && rows[i].promoStatId == id
    ensures forall k :: 0 <= k < i ==> rows[k].promoStatId != id
  {
    if rows[0].promoStatId == id then 0
    else
      var k :| 0 <= k < |rows| && rows[k].promoStatId == id;
      assert rows[1..][k - 1] == rows[k];
      var i := FirstIndex(rows[1..], id);
      assert forall j :: 1 <= j < i + 1 ==> rows[j] == rows[1..][j - 1];
      i + 1
  }

  /** The returned stations are listed by the station ids, and those come
      in order of the first row of each. */
  lemma {:induction false} StationsInFirstAppearanceOrder(rows: seq<CsvRow>, num: string -> real)
    ensures InFirstAppearanceOrder(rows, StationIds(rows))
    ensures var g := Group(rows, num);
      |g| == |StationIds(rows)| && forall k :: 0 <= k < |g| ==> g[k].id == StationIds(rows)[k]
  {
    var ids := StationIds(rows);
    forall k | 0 <= k < |ids|
      ensures Group(rows, num)[k].id == ids[k]
    {
      assert RowsOf(rows, ids[k])[0].promoStatId == ids[k];
    }
    if rows != [] {
      var pre, row := rows[..|rows| - 1], rows[|rows| - 1];
      assert rows == pre + [row];
      StationsInFirstAppearanceOrder(pre, num);
      var ids := StationIds(pre);
      var id := row.promoStatId;
      StationIdsAppend(pre, row);
      if id != "" && id !in ids {
        StationIdsMember(pre, id);
        FirstAppearanceNew(pre, row, ids);
      } else {
        FirstAppearanceSame(pre, row, ids);
      }
    }
  }

  /** The ids of `ids` (all with rows in `rows`) are ordered by first row. */
  ghost predicate InFirstAppearanceOrder(rows: seq<CsvRow>, ids: seq<string>) {
    && (forall k :: 0 <= k < |ids| ==> HasRowFor(rows, ids[k]))
    && (forall a, b :: 0 <= a < b < |ids| ==> FirstIndex(rows, ids[a]) < FirstIndex(rows, ids[b]))
  }

  /** A row of a station already seen keeps the order. */
  lemma FirstAppearanceSame(pre: seq<CsvRow>, row: CsvRow, ids: seq<string>)
    requires InFirstAppearanceOrder(pre, ids)
    ensures InFirstAppearanceOrder(pre + [row], ids)
    ensures forall k :: 0 <= k < |ids| ==> FirstIndex(pre + [row], ids[k]) < |pre|
  {
    forall k | 0 <= k < |ids|
      ensures HasRowFor(pre + [row], ids[k])
      ensures FirstIndex(pre + [row], ids[k]) == FirstIndex(pre, ids[k]) < |pre|
    {
      FirstIndexExtend(pre, row, ids[k]);
    }
  }

  /** The row of a new station puts that station last. */
  lemma FirstAppearanceNew(pre: seq<CsvRow>, row: CsvRow, ids: seq<string>)
    requires InFirstAppearanceOrder(pre, ids)
    requires !HasRowFor(pre, row.promoStatId)
    ensures InFirstAppearanceOrder(pre + [row], ids + [row.promoStatId])
  {
    var rows, id := pre + [row], row.promoStatId;
    var ids' := ids + [id];
    FirstIndexNew(pre, row);
    FirstAppearanceSame(pre, row, ids);
    forall k | 0 <= k < |ids'|
      ensures HasRowFor(rows, ids'[k])
    {
      if k < |ids| {
        assert ids'[k] == ids[k];
      }
    }
    forall a, b | 0 <= a < b < |ids'|
      ensures FirstIndex(rows, ids'[a]) < FirstIndex(rows, ids'[b])
    {
      assert ids'[a] == ids[a];
      if b < |ids| {
        assert ids'[b] == ids[b];
      }
    }
  }

  /** A later row does not move the first row of a station already seen. */
  lemma FirstIndexExtend(pre: seq<CsvRow>, row: CsvRow, x: string)
    requires HasRowFor(pre, x)
    ensures HasRowFor(pre + [row], x)
    ensures FirstIndex(pre + [row], x) == FirstIndex(pre, x) < |pre|
  {
    var rows := pre + [row];
    var i := FirstIndex(pre, x);
    assert rows[i] == pre[i];
    var j := FirstIndex(rows, x);
    assert j <= i;
    assert pre[j] == rows[j];
  }

  /** The row of a station not seen before is that station's first row. */
  lemma FirstIndexNew(pre: seq<CsvRow>, row: CsvRow)
    requires !HasRowFor(pre, row.promoStatId)
    ensures HasRowFor(pre + [row], row.promoStatId)
    ensures FirstIndex(pre + [row], row.promoStatId) == |pre|
  {
    var rows := pre + [row];
    assert rows[|pre|] == row;
    forall k | 0 <= k < |pre|
      ensures rows[k].promoStatId != row.promoStatId
    {
      assert rows[k] == pre[k];
    }
  }

  /** A station's rows start with its first row. */
  lemma {:induction false} RowsOfHead(rows: seq<CsvRow>, id: string)
    requires HasRowFor(rows, id)
    ensures RowsOf(rows, id)[0] == rows[FirstIndex(rows, id)]
  {
    var pre, row := rows[..|rows| - 1], rows[|rows| - 1];
    assert rows == pre + [row];
    RowsOfAppend(pre, row, id);
    if HasRowFor(pre, id) {
      RowsOfHead(pre, id);
      FirstIndexExtend(pre, row, id);
    } else {
      assert row.promoStatId == id by {
        var k :| 0 <= k < |rows| && rows[k].promoStatId == id;
        if k < |pre| {
          assert pre[k] == rows[k];
        }
      }
      FirstIndexNew(pre, row);
    }
  }

  /** The descriptive fields of every returned station come from the first
      row of its id; later rows of the station only add chargers and lower
      the minimum price. */
  lemma StationFromFirstRow(rows: seq<CsvRow>, num: string -> real, k: nat)
    requires k < |Group(rows, num)|
    ensures HasRowFor(rows, Group(rows, num)[k].id)
    ensures var s, r := Group(rows, num)[k], rows[FirstIndex(rows, Group(rows, num)[k].id)];
      && s.stationName == r.stationName && s.region == r.region
      && s.address == r.address && s.locationDetail == r.locationDetail
      && s.latitude == num(r.lati) && s.longitude == num(r.longi)
      && s.promotionPrice == num(r.promotionPrice)
      && s.firstFloor == ParseBoolean(r.firstFloor) && s.parkingFree == ParseBoolean(r.parkingFree)
  {
    var id := StationIds(rows)[k];
    assert RowsOf(rows, id)[0].promoStatId == id;
    assert Group(rows, num)[k].id == id;
    RowsOfHead(rows, id);
  }

  /** Number of rows with a non-empty station id. */
  function IdentifiedRowCount(rows: seq<CsvRow>): nat {
    if rows == [] then 0
    else IdentifiedRowCount(rows[..|rows| - 1]) + (if rows[|rows| - 1].promoStatId != "" then 1 else 0)
  }

  /** Total number of rows over the stations `ids`. */
  function RowsOver(rows: seq<CsvRow>, ids: seq<string>): nat {
    if ids == [] then 0
    else RowsOver(rows, ids[..|ids| - 1]) + |RowsOf(rows, ids[|ids| - 1])|
  }

  /** Total number of chargers over a list of stations. */
  function TotalChargers(stations: seq<ChargerStation>): nat {
    if stations == [] then 0
    else TotalChargers(stations[..|stations| - 1]) + |stations[|stations| - 1].chargers|
  }

  lemma {:induction false} RowsOverAppend(rows: seq<CsvRow>, row: CsvRow, ids: seq<string>)
    requires forall a, b :: 0 <= a < b < |ids| ==> ids[a] != ids[b]
    ensures RowsOver(rows + [row], ids) == RowsOver(rows, ids) + (if row.promoStatId in ids then 1 else 0)
  {
    if ids != [] {
      var pre := ids[..|ids| - 1];
      RowsOverAppend(rows, row, pre);
      RowsOfAppend(rows, row, ids[|ids| - 1]);
      assert row.promoStatId in ids <==> row.promoStatId in pre || row.promoStatId == ids[|ids| - 1];
      assert ids[|ids| - 1] !in pre by {
        forall a | 0 <= a < |pre|
          ensures pre[a] != ids[|ids| - 1]
        {
          assert pre[a] == ids[a];
        }
      }
    }
  }

  lemma {:induction false} RowsOverStations(rows: seq<CsvRow>)
    ensures RowsOver(rows, StationIds(rows)) == IdentifiedRowCount(rows)
  {
    if rows != [] {
      var pre, row := rows[..|rows| - 1], rows[|rows| - 1];
      assert rows == pre + [row];
      RowsOverStations(pre);
      RowsOverStep(pre, row);
    }
  }

  /** One more row adds one to the rows over all stations exactly when it
      has a station id. */
  lemma RowsOverStep(pre: seq<CsvRow>, row: CsvRow)
    ensures RowsOver(pre + [row], StationIds(pre + [row]))
            == RowsOver(pre, StationIds(pre)) + (if row.promoStatId != "" then 1 else 0)
  {
    var ids := StationIds(pre);
    var id := row.promoStatId;
    StationIdsAppend(pre, row);
    if id != "" && id !in ids {
      RowsOverNewStation(pre, row, ids);
    } else {
      RowsOverAppend(pre, row, ids);
    }
  }

  /** The row of a new station adds that station, with this one row. */
  lemma RowsOverNewStation(pre: seq<CsvRow>, row: CsvRow, ids: seq<string>)
    requires ids == StationIds(pre) && row.promoStatId != "" && row.promoStatId !in ids
    ensures RowsOver(pre + [row], ids + [row.promoStatId]) == RowsOver(pre, ids) + 1
  {
    var id := row.promoStatId;
    RowsOverAppend(pre, row, ids);
    StationIdsMember(pre, id);
    RowsOfAppend(pre, row, id);
    assert RowsOf(pre + [row], id) == [row];
    assert (ids + [id])[..|ids|] == ids;
  }

  lemma {:induction false} TotalChargersOver(rows: seq<CsvRow>, ids: seq<string>, num: string -> real)
    requires forall k :: 0 <= k < |ids| ==> HasRowFor(rows, ids[k])
    ensures TotalChargers(seq(|ids|, k requires 0 <= k < |ids| => StationFor(rows, ids[k], num))) == RowsOver(rows, ids)
  {
    if ids != [] {
      var pre := ids[..|ids| - 1];
      var s := seq(|ids|, k requires 0 <= k < |ids| => StationFor(rows, ids[k], num));
      var s' := seq(|pre|, k requires 0 <= k < |pre| => StationFor(rows, pre[k], num));
      assert s[..|s| - 1] == s';
      TotalChargersOver(rows, pre, num);
    }
  }

  /** Charger conservation: every row with a non-empty station id adds
      exactly one charger, so the stations hold as many chargers as there
      are such rows. */
  lemma ChargerConservation(rows: seq<CsvRow>, num: string -> real)
    ensures TotalChargers(Group(rows, num)) == IdentifiedRowCount(rows)
  {
    TotalChargersOver(rows, StationIds(rows), num);
    RowsOverStations(rows);
  }

  /** Every station is fast exactly when one of its chargers is, and its
      chargers are those of its rows, in row order. */
  lemma StationChargers(rows: seq<CsvRow>, num: string -> real, k: nat)
    requires k < |Group(rows, num)|
    ensures var s := Group(rows, num)[k];
      && s.chargers == ChargersOf(RowsOf(rows, s.id), num)
      && (s.hasFastCharger <==> exists c :: c in s.chargers && c.isFast)
  {
    var ids := StationIds(rows);
    var s := Group(rows, num)[k];
    assert RowsOf(rows, ids[k])[0].promoStatId == ids[k];
    assert s.id == ids[k];
    if exists c :: c in s.chargers && c.isFast {
      var c :| c in s.chargers && c.isFast;
      var j :| 0 <= j < |s.chargers| && s.chargers[j] == c;
    }
  }

  /** With a non-negative first price, the running minimum is never
      negative; it is 0 exactly when no price is positive, and otherwise one
      of the prices that is at most every positive price. Later prices of 0
      or below are skipped by the positivity guard. */
  lemma {:induction false} MinPriceIsLeastPositive(prices: seq<real>)
    requires |prices| >= 1
    requires prices[0] >= 0.0
    ensures var m := MinPriceFold(prices);
      && m >= 0.0
      && (m == 0.0 <==> forall k :: 0 <= k < |prices| ==> prices[k] <= 0.0)
      && (m != 0.0 ==> m in prices && forall k :: 0 <= k < |prices| && prices[k] > 0.0 ==> m <= prices[k])
  {
    if |prices| > 1 {
      var pre, p := prices[..|prices| - 1], prices[|prices| - 1];
      assert prices == pre + [p];
      assert pre[0] == prices[0];
      MinPriceIsLeastPositive(pre);
      var m := MinPriceFold(pre);
      assert forall k :: 0 <= k < |pre| ==> pre[k] == prices[k];
      if m != 0.0 {
        assert m in prices;
      }
    }
  }

  /** A station's minimum price, when the station's own price (that of its
      first row) is not negative: 0 exactly when none of its rows has a
      positive price, and otherwise the price of one of its rows that is at
      most every positive price of its rows. */
  lemma StationMinPrice(rows: seq<CsvRow>, num: string -> real, k: nat)
    requires k < |Group(rows, num)|
    requires Group(rows, num)[k].promotionPrice >= 0.0
    ensures var s := Group(rows, num)[k];
      var ps := PricesOf(RowsOf(rows, s.id), num);
      && s.minPrice >= 0.0
      && (s.minPrice == 0.0 <==> forall j :: 0 <= j < |ps| ==> ps[j] <= 0.0)
      && (s.minPrice != 0.0 ==>
            s.minPrice in ps && forall j :: 0 <= j < |ps| && ps[j] > 0.0 ==> s.minPrice <= ps[j])
  {
    var ids := StationIds(rows);
    var s := Group(rows, num)[k];
    var rs := RowsOf(rows, ids[k]);
    assert rs[0].promoStatId == ids[k];
    assert s.id == ids[k];
    var ps := PricesOf(rs, num);
    assert ps[0] == s.promotionPrice;
    MinPriceIsLeastPositive(ps);
    assert s.minPrice == MinPriceFold(ps);
    assert PricesOf(RowsOf(rows, s.id), num) == ps;
  }

  /** Every row of a station is one of the rows. */
  lemma {:induction false} RowsOfElement(rows: seq<CsvRow>, id: string, j: nat)
    requires j < |RowsOf(rows, id)|
    ensures RowsOf(rows, id)[j] in rows
  {
    var pre := rows[..|rows| - 1];
    var row := rows[|rows| - 1];
    if row.promoStatId == id && j == |RowsOf(pre, id)| {
      assert RowsOf(rows, id)[j] == row;
    } else {
      RowsOfElement(pre, id, j);
      assert RowsOf(rows, id)[j] == RowsOf(pre, id)[j];
      assert RowsOf(pre, id)[j] in pre;
    }
  }

  // ---------------------------------------------------------------------
  // The whole loader
  // ---------------------------------------------------------------------

  /** The stations `parseCSVData` returns for `csvText`. */
  function CsvStations(csvText: string, num: string -> real): seq<ChargerStation> {
    var lines := Split(Trim(csvText), '\n');
    var headers := Split(lines[0], ',');
    Group(KeptRows(lines[1..], |headers|), num)
  }

  /** A text of one line after trimming (an empty text too) is all
      header: no station comes out. */
  lemma HeaderOnlyNoStations(csvText: string, num: string -> real)
    requires '\n' !in Trim(csvText)
    ensures CsvStations(csvText, num) == []
  {
    CountCharAbsent(Trim(csvText), '\n');
    var lines := Split(Trim(csvText), '\n');
    assert lines[1..] == [];
  }

  /** `parseCSVData`: header width from a plain comma split of the first
      line, rows from the later lines, stations grouped from the rows. */
  method ParseCsvData(csvText: string, num: string -> real) returns (stations: seq<ChargerStation>)
    ensures stations == CsvStations(csvText, num)
  {
    var lines := Split(Trim(csvText), '\n');
    var headers := Split(lines[0], ',');
    var rows := ParseRows(lines, |headers|);
    stations := GroupStations(rows, num);
  }
}
