# EV charger map: station loader and live-status aggregation

This project models the two pieces of logic of the charger-map web app that
compute something: the CSV station loader (`parseBoolean` and
`parseCSVData` in `src/utils.ts`) and the live-status aggregation
(`aggregateChargerStatus` in `src/api.ts`). It proves what they guarantee.

**Station loader.** The loader works through the CSV text in these steps:
- It trims the text and splits it on line feeds.
- It takes the header width from a plain comma split of the first line.
- For every later line, it trims the line and skips it when blank.
- Otherwise it splits the line with a quote-aware scanner. A `"` toggles quote mode, and a comma outside quotes ends a field. Every field is trimmed.
- It keeps the line as a row only when the field count equals the header width.
- It groups the kept rows by station id (`promo_statId`) into an insertion-ordered map.
- Rows with an empty id are skipped.
- The first row of a station creates its record.
- Every row appends one charger to its station, raises the station's fast flag for a fast charger, and lowers the running minimum price to a smaller positive price. A minimum of 0 counts as unset.

**Aggregation.** The aggregation walks a station's charger roster:
- For each roster charger it looks up the first live status item with the same charger id.
- A roster charger with no live item is skipped.
- A matched charger counts towards the total of its class (fast or regular). It also counts as available when the status is `"2"`.
- `allInUse` is a three-case formula over the four counters.

**Modules.**
- `Types` holds the records of `src/types.ts`.
- `JsString` models the JavaScript `trim` and one-character `split` the loader uses.
- `CsvFields` is the field scanner.
- `Utils` is the loader.
- `Api` is the aggregation.

**How the imperative code is modelled.**
- Every loop of the source is a method with a loop. The in-place update of a station record is the method `AddCharger`. Each method is proved equal to a specification function:
  - `SplitFields` to `Fields`;
  - `ParseRows` to `KeptRows`;
  - `GroupStations` to `Group`;
  - `AddCharger` to `AddRow`;
  - `AggregateChargerStatus` to `Summary`;
  - `ParseCsvData` to `CsvStations`.
- The specification functions carry the lemmas that state what the source promises.
- A station record that the source updates in place is a datatype value. It is stored in a map keyed by station id, and a sequence of ids keeps the map's insertion order. The loop replaces the value after each row.
- `parseFloat(x) || 0` is a parameter `num: string -> real`: the number a column reads as, 0 when it is not a number.

## Model

| member | source | states |
|---|---|---|
| Api.Find | src/api.ts:90-92 | `find`: no result exactly when no live item has the id; otherwise the result has that id and is the first live item with it |
| Api.AggregateChargerStatus | src/api.ts:80-129 | the loop's four counters are the matched and available counts of each class; `allInUse` holds iff something matched and nothing matched is available |
| Api.AvailableWithinTotal | src/api.ts:84-111 | in each class the available count never exceeds the total |
| Api.TotalsCountOccurring | src/api.ts:89-111 | fast total plus regular total equals the number of roster chargers whose id occurs in the live list |
| Api.AllInUse | src/api.ts:113-116 | the three-case formula holds exactly when some class has chargers and no class that has chargers has one available |
| Api.AllInUseClosedForm | src/api.ts:113-116 | the three-case `allInUse` formula equals "some charger matched and none is available", so it is false when nothing matched and false when either class has availability |
| Api.EmptyLiveAllZero | src/api.ts:84-116 | with an empty live list all four counters are 0 and `allInUse` is false |
| Api.CountsAppend | src/api.ts:89-111 | counts over a concatenated roster are the sums of the counts of the parts |
| Api.UnmatchedChargerIgnored | src/api.ts:90-96 | a roster charger without a live item, anywhere in the roster, leaves the whole summary unchanged |
| Api.FindSkips | src/api.ts:90-92 | removing a live item with another id, or one after an earlier item with the id, does not change what `find` returns |
| Api.SameFindSameCounts | src/api.ts:89-111 | two live lists that give the same `find` result for every roster charger give the same counts |
| Api.ForeignLiveItemIgnored | src/api.ts:90-96 | a live item whose id is in no roster entry does not change the summary |
| Api.LaterDuplicateIgnored | src/api.ts:90-92 | a live item after an earlier one with the same id does not change the summary, whatever its status |
| Api.SingleMatchedCharger | src/api.ts:98-110 | a matched charger alone makes its class total 1 and the other class 0/0, and is available exactly when its first live item has status "2" |
| JsString.Trim | src/utils.ts:32 | the trimmed text starts and ends with a non-whitespace character (or is empty) |
| JsString.TrimRemovesOnlyEndWhitespace | src/utils.ts:32 | the trimmed text is a contiguous slice of the input with only whitespace before and after it |
| JsString.TrimIdempotent | src/utils.ts:32 | a text with no whitespace at either end is its own trim, so trimming twice is trimming once |
| JsString.TrimKeepsOut | src/utils.ts:45 | trimming adds no character that was not in the text |
| JsString.Split | src/utils.ts:26-27 | `split`: one more piece than separators, no piece contains the separator, and joining the pieces gives the text back |
| JsString.SplitJoin | src/utils.ts:26-27 | splitting the join of separator-free pieces gives the pieces back |
| JsString.CountCharAbsent | src/utils.ts:26 | a character absent from a text occurs in it zero times, so a text without line feeds splits into one line |
| CsvFields.Step | src/utils.ts:42-49 | one character of the loop: the quote flag flips exactly on a `"`, a comma outside quotes closes exactly one field, and closed fields never change |
| CsvFields.StepJoin | src/utils.ts:42-49 | one character keeps the fields joined with commas equal to the text read so far without quotes |
| CsvFields.TrimAll | src/utils.ts:45-51 | the pushed values are the fields, each trimmed, same count and order |
| CsvFields.SplitFields | src/utils.ts:36-51 | the character loop produces exactly the trimmed fields of the scan |
| CsvFields.ScanCounts | src/utils.ts:40-50 | the quote flag after a prefix is the parity of its quotes, and one field has closed per comma outside quotes |
| CsvFields.FieldCount | src/utils.ts:36-51 | a line yields one more value than it has commas outside double quotes |
| CsvFields.RawFieldsJoin | src/utils.ts:40-50 | the untrimmed fields joined with commas give the line without its quote characters |
| CsvFields.ScanInsideQuotes | src/utils.ts:42-48 | inside quotes, a stretch without `"` is appended to the current field: commas in it end no field |
| CsvFields.QuotedStretchStays | src/utils.ts:42-48 | a quoted stretch after an even number of quotes, commas included, is appended to the last field and closes no field |
| CsvFields.CommaOutsideQuotesEndsField | src/utils.ts:44-46 | a comma after an even number of quotes closes the current field and starts an empty one |
| CsvFields.QuotedCommaRawFields | src/utils.ts:40-50 | the line `a,"b,c"` scans into the two raw fields `a` and `b,c` |
| CsvFields.QuotedCommaExample | src/utils.ts:36-51 | the line `a,"b,c"` gives the two values `a` and `b,c` |
| CsvFields.RawFieldsQuoteFree | src/utils.ts:42-48 | no untrimmed field holds a `"` |
| CsvFields.FieldsQuoteFreeAndTrimmed | src/utils.ts:42-51 | no value holds a `"`, and every value is trimmed |
| Utils.ParseBooleanOnlyExactTrue | src/utils.ts:20-22 | `parseBoolean` (the function `Utils.ParseBoolean`) is true exactly for "TRUE"; "true", "True" and "" are false |
| Utils.ToRow | src/utils.ts:53-69 | column k of the row object is value k of the line, or empty text when the line has no value k |
| Utils.ToRowColumns | src/utils.ts:53-69 | a line with one value per column gives its values back as the row's columns in header order, and a row rebuilt from its columns is the same row |
| Utils.KeptIndices | src/utils.ts:31-72 | the indices of the lines that pass a test, increasing, all and only those |
| Utils.FilterMapAtKeptIndices | src/utils.ts:31-72 | the rows built are one per accepted line, in line order |
| Utils.ParseRows | src/utils.ts:30-72 | the row loop pushes exactly the rows of the data lines after the header, in order |
| Utils.KeptRowsAreDataLines | src/utils.ts:31-72 | a line gives a row iff it is not blank after trimming and has the header's field count; each gives exactly one row, in line order |
| Utils.StationIds | src/utils.ts:75-81 | the map's keys in insertion order are distinct, non-empty ids that each have a row |
| Utils.StationIdsAppend | src/utils.ts:78-81 | a row adds its id at the end of the keys exactly when the id is non-empty and new |
| Utils.StationIdsComplete | src/utils.ts:78-81 | every non-empty id of a row is a key |
| Utils.StationIdsMember | src/utils.ts:75-81 | an id is a key iff it is non-empty and some row has it |
| Utils.RowsOf | src/utils.ts:77-81 | the rows of a station all carry its id, and there are none iff no row has the id |
| Utils.NewStation | src/utils.ts:82-100 | the record created for a station's first row carries the row's id, has no chargers, is not fast, and starts its minimum at its own price |
| Utils.AddRow | src/utils.ts:103-122 | one more row appends that row's own charger (its id, type, speed and `is_fast` flag) and keeps the earlier ones; the fast flag becomes the old flag or the new charger's; every descriptive field is unchanged; a price of 0 or below leaves the minimum alone; otherwise the minimum is the old one or the new price, never rises while positive, never exceeds a new positive price unless it was negative, and stays put once negative |
| Utils.RowsOfHead | src/utils.ts:77-101 | the first of a station's rows is the first row of the input with its id |
| Utils.StationFromFirstRow | src/utils.ts:81-101 | every returned station takes its name, region, address, location detail, coordinates, price and the two flags from the first row of its id; later rows do not change them |
| Utils.StationForAppend | src/utils.ts:81-122 | adding a row updates its station (a fresh one for a new id) by appending the charger, or-ing the fast flag and lowering the minimum price |
| Utils.StationForOther | src/utils.ts:77-123 | adding a row leaves every station of another id unchanged |
| Utils.AddCharger | src/utils.ts:103-122 | the per-row update of a station record: push the charger, set the fast flag for a fast charger, replace the minimum by a smaller positive price |
| Utils.GroupStations | src/utils.ts:75-125 | the grouping loop returns the stations in the map's order, each the station grouped from all its rows |
| Utils.GroupSkip | src/utils.ts:78-79 | a row with an empty id keeps the grouping invariant without touching map or order |
| Utils.GroupAdd | src/utils.ts:81-123 | a row with an id keeps the grouping invariant: the key is appended to the order only when new |
| Utils.GroupStep | src/utils.ts:81-123 | the same, for the loop's own step: create the record and append the key when new, then replace the record by its update |
| Utils.MatchesAdd | src/utils.ts:81-123 | folding a row into its record keeps every record equal to its grouped station |
| Utils.MatchesOthers | src/utils.ts:103-123 | a row leaves the other records matching |
| Utils.KeysAdd | src/utils.ts:81-101 | setting a key keeps the map's keys equal to the order when a new key is appended |
| Utils.GroupedList | src/utils.ts:125 | listing the map's values in insertion order gives the grouped stations |
| Utils.StationsOnePerId | src/utils.ts:75-125 | exactly one station per distinct non-empty id, no id twice |
| Utils.FirstIndex | src/utils.ts:77-81 | the index of the first row of a station: it has the id and no earlier row does |
| Utils.StationsInFirstAppearanceOrder | src/utils.ts:75-125 | the k-th returned station has the k-th station id, and the ids come in the order of their first rows |
| Utils.FirstAppearanceSame | src/utils.ts:78-81 | a row of a known station keeps that order |
| Utils.FirstAppearanceNew | src/utils.ts:81-101 | the row of a new station puts it last |
| Utils.FirstIndexExtend | src/utils.ts:77-81 | a later row does not move a station's first row |
| Utils.FirstIndexNew | src/utils.ts:81-101 | the row of a station not seen before is its first row |
| Utils.RowsOfAppend | src/utils.ts:103-112 | adding a row appends it to its own station's rows and leaves the others' rows alone |
| Utils.ChargersAppend | src/utils.ts:107-112 | one more row of a station adds one charger at the end |
| Utils.AnyFastAppend | src/utils.ts:114-116 | the fast flag after one more charger is the old flag or the charger's |
| Utils.PricesAppend | src/utils.ts:119-122 | the running minimum after one more price follows the replacement rule |
| Utils.RowsOverAppend | src/utils.ts:103-112 | a row adds one to the rows over a list of distinct ids exactly when its id is in the list |
| Utils.RowsOverStations | src/utils.ts:77-112 | the rows over all stations are exactly the rows with a non-empty id |
| Utils.RowsOverStep | src/utils.ts:77-112 | one more row adds one to that total exactly when it has an id |
| Utils.RowsOverNewStation | src/utils.ts:81-112 | the row of a new station adds the station with this one row |
| Utils.TotalChargersOver | src/utils.ts:103-112 | the stations of a list of ids hold in total as many chargers as those ids have rows |
| Utils.ChargerConservation | src/utils.ts:103-112 | the stations hold as many chargers in total as there are kept rows with a non-empty id |
| Utils.StationChargers | src/utils.ts:98-116 | a station's chargers are those of its rows in row order, and it is fast iff one of its chargers is fast |
| Utils.MinPriceIsLeastPositive | src/utils.ts:84-122 | with a non-negative first price, the running minimum is never negative, is 0 iff no price is positive, and otherwise is one of the prices and at most every positive price |
| Utils.StationMinPrice | src/utils.ts:84-122 | when a station's own price (its first row's) is not negative, its minimum price is 0 iff none of its rows has a positive price, and otherwise the least positive price among its rows |
| Utils.RowsOfElement | src/utils.ts:77-112 | every row of a station is one of the kept rows |
| Utils.HeaderOnlyNoStations | src/utils.ts:26-31 | a text with a single line after trimming (an empty text too) yields no station |
| Utils.ParseCsvData | src/utils.ts:25-126 | `parseCSVData` returns the stations grouped from the data rows of the trimmed text |

## Left out

- `fetchWithTimeout` and `fetchChargerInfo` (src/api.ts:18-75) are left out: network I/O, a race against a timer, JSON decoding and error-message rewriting.
- `calculateDistance` and `toRad` (src/utils.ts:4-17) are left out: floating-point trigonometry.
- `parseFloat(x) || 0` is the parameter `num`: decimal parsing is not modelled. Numbers are reals, so NaN, infinities and rounding are not modelled.
- The `onlyTaxi` field of a station and the `only_taxi` column of a CSV row (src/types.ts:17) are left out: the loader never reads the column and never sets the field (src/utils.ts:54-69, 84-101).
- A live status item keeps only `chgerId` and `stat`, the two fields the aggregation reads.
- Station records are values replaced in a map, not objects updated in place. The loader's records are private to it, so no aliasing is observable.
- Utils.MinPriceIsLeastPositive: requires the first price to be non-negative. With a negative first price the running minimum stays negative, because a later positive price is never below it. Later negative prices need no requirement, because the positivity guard skips them.
- Utils.StationMinPrice: requires the station's own price, that of its first row, to be non-negative, for the same reason.
- The UI, map SDK, search and server files are not part of this model.
