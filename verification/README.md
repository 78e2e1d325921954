# Winter trains timetable: a verified model of the table pipeline

The application reads a CSV export of a rail timetable. Each line is a
station, and each column after the name and the type is a train service.
From this it builds printable sub-tables. Each sub-table is built around
one *target* station and a set of *terminal* stations. The user can mark
a range of services as the first repetition of a regular-interval
pattern, and the application then flags the later services that follow
the pattern.

This project models that pipeline in Dafny and proves what each step
promises:

- `TimeParser` (`timeparser.dfy`): `rawToTime`, the parser for a time cell.
  The source uses an unanchored regular expression. The model runs the
  leftmost-match scan explicitly and proves where in the cell each group
  lies and what numbers it gives.
- `Ingest` (`ingest.dfy`): `getData` after the file has been split into
  rows and fields. It skips blank rows, builds one station per row and
  appends each row's cells to the services. It reports the two ways a file
  can fail: a row wider than row 0 (in the source this dereferences a
  service that does not exist), and a service left short (the error
  message).
- `Deriver` (`deriver.dfy`): `calculateTableContents`, plus the
  terminal-station lists used by `ADD_TABLE` and `TOGGLE_TERMINAL_STATION`.
- `Pattern` (`pattern.dfy`): the pattern detector of `SET_PATTERN_RANGE`.
  The specifications are functions on a service list. Methods with loops
  follow the source's loops and are proved equal to those functions.
- `Store` (`store.dfy`): the Vuex state. A `Table` class holds the fields
  the mutations update in place. A `Store` class holds the loaded stations
  and services, the list of tables and the running table id.
- `SubTable` (`subtable.dfy`): the `sub-table` component's controls, each
  a sequence of store mutations.
- The lemmas are stated about four specification functions:
  - `Ingest.Load`, the outcome of `getData`;
  - `Deriver.Derive`, the result of `calculateTableContents`;
  - `Deriver.DefaultTerminals`, the terminal list `ADD_TABLE` sets;
  - `Pattern.Detect`, the services after `SET_PATTERN_RANGE`.

  The methods that follow the source's steps are proved equal to them.
- `Timetable`, `Seqs` and `Wrappers` hold the shared records
  (`Station`, `Cell`, `Service`), index filters and `Option`/`Result`.

Stations are looked up by id in the source, but a service's cells are
indexed by position. The derivation therefore requires every station's id
to equal its position in the full bank (`IdsArePositions`). `getData`
gives each station its row index as id, and it skips blank rows. So this
holds for every file without a blank row (`Ingest.NoBlankRowIdsArePositions`).
It fails for a file with a blank row between two stations
(`Ingest.BlankRowShiftsIds`), and such files are outside the model.

## Model

| member | source | states |
|---|---|---|
| TimeParser.MatchCell | main.js:8-10 | the pattern matches exactly when the cell has a digit; hours are 1 or 2 digits, minutes 0 to 2 digits, the footnote only `[a-z ]` |
| TimeParser.CellGroups | main.js:4-10 | the groups of the match are the cell itself read from its first digit: hours, then a separator exactly when the next character is `:` or `.`, then minutes, then footnote; each group is as long as the pattern lets it be; the match has a bracket exactly when one precedes the first digit |
| TimeParser.CellValues | main.js:11-19 | `h` and `m` are the decimal values of the hour and minute digits, minute 0 when there are none; `vis` is both groups padded to two digits around a colon, then the footnote |
| TimeParser.PaddedValue | main.js:11-18 | parsing a padded group gives the group's own decimal value |
| TimeParser.Pad2 | main.js:11-12 | `padStart(2, '0')`: two characters, the input right-aligned, zeros in front |
| TimeParser.RawToTime | main.js:3-31 | empty exactly when the cell has no digit, and then the fixed empty record with `vis` of four spaces; otherwise hours and minutes are at most 99; `vis` is never empty |
| TimeParser.ConnectionIffBracket | main.js:8-16 | a non-empty cell is a connection exactly when the character just before its first digit is `(` |
| TimeParser.RenderingShape | main.js:11-20 | `vis` is `HH:MM` plus the footnote; `h` and `m` are the values of those digits; `output` is the four digits, plus the footnote in style tags only when there is one |
| TimeParser.ReparseVisible | main.js:3-31 | parsing a cell's own `vis` gives back the same time, `vis` and `output`; only the connection mark is lost |
| TimeParser.MissingMinutesAreZero | main.js:11-18 | the cell `7` reads as 07:00 (`vis` "07:00", `output` "0700") |
| TimeParser.ConnectionWithFootnote | main.js:8-20 | `(9.05a` is a connection at 09:05 with footnote `a` and the footnote in style tags |
| Ingest.StripBom | main.js:39-41 | a leading byte-order mark is removed, and nothing else changes |
| Ingest.FirstOverwide | main.js:59-66 | the first non-blank row after row 0 with more cells than there are services; earlier rows fit |
| Ingest.FirstInvalid | main.js:71 | `services.find` by length: the first service whose length is not the bank's; all before it have that length |
| Ingest.FindVisible | main.js:73 | `findIndex(x => x.vis !== '')`: -1 exactly when no cell is visible, otherwise the first visible one |
| Ingest.PushRowCells | main.js:59-67 | row 0 creates one service per cell; a later row appends cell `j` to service `j`, and fails exactly when it has more cells than there are services |
| Ingest.AddRow | main.js:47-68 | one row of the walk: a blank row is skipped; otherwise its station is added and its cells pushed; a failure is exactly the first over-wide row |
| Ingest.AssembleRows | main.js:47-68 | the walk fails exactly when some row is over-wide, at the first one; otherwise the bank is one station per non-blank row and service `j` is column `j` |
| Ingest.GetData | main.js:34-80 | the method's result equals `Load`, the functional statement of `getData` |
| Ingest.LoadOkIff | main.js:59-75 | a load succeeds exactly when every non-blank row after row 0 has as many cells as row 0 |
| Ingest.NoBlankRowIdsArePositions | main.js:47-57 | a file without blank rows loads into a bank with one station per row, whose ids are their positions |
| Ingest.BlankRowShiftsIds | main.js:49-54 | a file with a blank row between two stations loads, but its second station has id 2 at position 1 |
| Ingest.LoadedBank | main.js:47-57 | after a successful load, the stations are sorted by id; row `i` has a station exactly when it is not blank; each station has its row's name and type |
| Ingest.LoadedServices | main.js:59-67 | after a successful load, there is one service per cell of row 0, none marked, each one cell per station; cell `p` of service `j` is the parse of field `j` of station `p`'s row |
| Ingest.ShortServiceMessage | main.js:71-74 | a short-service error carries row 0's cell of the first short service and the first station's name; that service's index is the cell count of the narrowest later row |
| Ingest.OverwideRowAborts | main.js:62-66 | the first row after row 0 that is wider than row 0 aborts the load at that row |
| Deriver.SortById | store.js:20 | the sort by id is a permutation |
| Deriver.SortByIdSorted | store.js:20 | with distinct ids the sorted stations are strictly increasing by id |
| Deriver.CandidateIsFilter | store.js:14-22 | the sorted list of target plus terminals equals the full bank filtered to those stations in route order; the positions it keeps are the stations' ids |
| Deriver.SelectedIff | store.js:25-36 | step 2 keeps, in order, exactly the services that stop at the target and at one or more terminal stations |
| Deriver.CollectUnused | store.js:46-51 | `removeStations` holds, in ascending order, exactly the bank positions where every service's cell is empty |
| Deriver.PruneShape | store.js:53-58 | pruning keeps, in order, the stations at the used positions, and from every service exactly the cells at those stations |
| Deriver.DeriveBank | store.js:12-61 | the derived bank is a subsequence of the full bank, in route order, holding only the target and terminal stations |
| Deriver.DeriveCells | store.js:25-58 | one derived service per selected service, in order, each with one cell per derived station, that station's cell in the source service |
| Deriver.DeriveComplete | store.js:45-54 | a table station at which some selected service stops is kept in the derived bank |
| Deriver.DeriveUsed | store.js:45-54 | no kept station has an empty cell in every derived service |
| Deriver.DeriveDropped | store.js:45-54 | a table station missing from the derived bank has an empty cell in every selected service |
| Deriver.TargetSurvives | store.js:24-29 | whenever some service is selected, the target station is in the derived bank |
| Deriver.NoTerminalsNoContents | store.js:31-35 | with no terminal stations, a table has no stations and no services |
| Deriver.DeriveDependsOnSet | store.js:17-36 | the derivation depends only on the set of terminal stations, not on their order |
| Deriver.ToggleTerminal | store.js:92-96 | the terminal set loses the station when present, otherwise gains it; no duplicates are introduced |
| Deriver.ToggleWellFormed | store.js:90-98 | toggling a station other than the target keeps the inputs acceptable to the derivation |
| Deriver.ToggleTwice | store.js:90-100 | toggling a station twice restores the terminal set and the derived table |
| Deriver.DefaultTerminalsMembers | store.js:78-80 | an id is a default terminal exactly when a station other than the target carries it and one of the six default names |
| Deriver.DefaultTerminalsSorted | store.js:78-80 | in a bank sorted by id, the default terminals come in ascending order |
| Deriver.DefaultTerminalsWellFormed | store.js:76-86 | the default terminal list is one the derivation accepts: in the bank, no duplicates, not the target |
| Pattern.Reset | store.js:122-128 | the first loop clears both flags on every service and cell, and changes nothing else |
| Pattern.ResetFlags | store.js:122-128 | the nested loops compute `Reset` |
| Pattern.CheckService | store.js:139-157 | the cell loop flags exactly the failing cells, and reports whether any cell fails |
| Pattern.CheckBlock | store.js:137-158 | the first `forEach` over a block: services of the block are checked against the range in turn; the others are untouched; `patternBroken` becomes true exactly when some service fails |
| Pattern.MarkBlock | store.js:161-163 | the second `forEach` sets the mark of exactly the block's services |
| Pattern.CheckBlocks | store.js:134-164 | the block loop computes `Checked`: services up to `end` untouched; every later service checked against its baseline and marked while no failure has been seen |
| Pattern.CollectMarked | store.js:166 | `filter(service => service.isPatternMatching)` gives the marked positions in order |
| Pattern.TrimRun | store.js:166-173 | the last step computes `Trimmed` |
| Pattern.DetectPatterns | store.js:113-174 | `SET_PATTERN_RANGE`'s effect on the services equals `Detect`: reset only when the range is unset, otherwise reset, check, trim |
| Pattern.UnbrokenIff | store.js:133-163 | a service after the range is marked by the block loop exactly when it lies before the first block that holds a failing service |
| Pattern.CheckedMarks | store.js:134-164 | after the block loop, the marked services are exactly one contiguous run starting right after the range |
| Pattern.TrimmedRun | store.js:166-173 | a run of at most three blocks is unmarked entirely; a longer run loses its last block |
| Pattern.EvaluateMarks | store.js:113-174 | with the range set, a service stays marked exactly when it is after the range, before the end of the run less one block, and the run is longer than three blocks |
| Pattern.EvaluateInvalid | store.js:137-157 | with the range set, a cell is flagged invalid exactly when it is after the range, not ignored, and differs in emptiness or minute from the same station's baseline cell |
| Pattern.BreakIsSticky | store.js:147-163 | a failing service unmarks itself and every later service |
| Pattern.SurvivingRunIsLong | store.js:166-173 | if any service stays marked, then the first two blocks plus one service after the range all exist and are all marked |
| Pattern.FirstMismatchIgnoresFlags | store.js:139-157 | two service lists with the same cells fail at the same first block: the checks read only the cells' times, never the flags the detector writes |
| Pattern.DetectKeepsCells | store.js:113-174 | `SET_PATTERN_RANGE` writes only the two flags, whether or not the range is set |
| Pattern.IgnoredNeverInvalid | store.js:139-140 | an ignored cell is never flagged invalid |
| Pattern.UnsetRangeClears | store.js:122-132 | with an end of the range unset, nothing is marked and nothing is invalid |
| Store.Store.constructor | store.js:64-75 | `LOAD_BANK` and `LOAD_SERVICES`: the store holds the loaded stations and services, no tables and a counter at 0; it requires ids equal to positions, which is where files with a blank row between stations are excluded |
| Store.FlipIgnore | store.js:102-107 | exactly one cell's ignore flag is flipped; everything else is as before |
| Store.FlipIgnoreTwice | store.js:102-107 | toggling the same cell twice restores the services |
| Store.FindId | store.js:91 | `tables.find(t => t.id === tableId)` as a position: the first table with that id, or past the end |
| Store.Table.Fill | store.js:77-88 | the new table gets the default terminals and the given id, and shows the contents derived for them |
| Store.Table.SetPatternRange | store.js:113-174 | the given ends replace the stored ones, and the services become `Detect` of the old services over the new range |
| Store.Table.ResetPatternRange | store.js:108-112 | both ends are unset; nothing else changes |
| Store.Table.ToggleTimeIgnore | store.js:102-107 | the services become `FlipIgnore` of the old ones; nothing else changes |
| Store.Table.ToggleTerminalStation | store.js:90-101 | the terminals are toggled and the contents are derived afresh from the loaded file; the range is kept |
| Store.Store.AddTable | store.js:76-89 | the table gets the next id and the default terminals, is appended, and shows the derived contents; the counter advances; the store invariant holds (distinct ids below the counter) |
| Store.Store.SetPatternRange | store.js:113-116 | `SET_PATTERN_RANGE` on the table with that id; the other tables and the table's position are unchanged |
| Store.Store.ResetPatternRange | store.js:108-112 | `RESET_PATTERN_RANGE` on the table with that id |
| Store.Store.ToggleTimeIgnore | store.js:102-107 | `TOGGLE_TIME_IGNORE` on the table with that id |
| Store.Store.ToggleTerminalStation | store.js:90-101 | `TOGGLE_TERMINAL_STATION` on the table with that id; the result is `Derive` of the loaded file under the toggled terminals |
| SubTable.SubTable.ResetRange | main.js:95-98 | the range is unset and every flag is cleared |
| SubTable.SubTable.SetStart | main.js:99-101 | the range becomes the single clicked service, and the flags are recomputed over it |
| SubTable.SubTable.SetEnd | main.js:102-108 | a click after the start moves the end; a click before it moves the start; a click on the start, or with no start, changes nothing; the range stays well formed |
| SubTable.SubTable.ToggleTerminalStation | main.js:109-113 | the contents are derived afresh for the toggled terminals, and the flags are recomputed over the kept range |
| SubTable.SubTable.ToggleTimeIgnore | main.js:114-118 | one ignore flag is flipped, and the flags are recomputed over the range |

## Left out

- Reading the file (`FileReader`), the CSV split into lines and fields, and `trim()` are left out. The model starts from the rows already split into fields. The byte-order-mark strip is modelled on its own (`StripBom`).
- The rendering components (download, upload, station pickers, ZIP export), Vue reactivity (`Vue.set`, `Vue.delete`) and `LOAD_BANK` / `LOAD_SERVICES` beyond the `Store` constructor are left out. They are presentation or plumbing.
- Ingest.AddRow: when a row is wider than row 0, the source has already pushed that row's station and its first cells before the `TypeError` is thrown. The model reports only the failing row, since the whole load is abandoned at that point.
- Deriver.SortById: the browser's sort is modelled as an insertion sort. With distinct ids any correct sort gives the same result (`SortedByIdUnique`).
- Deriver.Derive: requires `WellFormed`, which is not checked by the source. It requires station ids equal to their positions, terminal stations inside the bank, no repeated terminal, and a target that is not also a terminal. A file without a blank row loaded by `getData` meets the first condition (`Ingest.NoBlankRowIdsArePositions`). `ADD_TABLE` meets the others, and `ToggleWellFormed` keeps them.
- Store.Table.ToggleTerminalStation: requires that the toggled station is not the target. The source would add the target as a terminal, and the derived bank would then hold the target twice while each service keeps that station's cell once.
- Store.Store.ToggleTerminalStation: the same requirement that the toggled station is not the target, for the same reason.
- SubTable.SubTable.ToggleTerminalStation: the same requirement that the toggled station is not the target. The component lists the whole bank (`allStations`), so the source does not stop the user choosing the target.
- Store.Table.SetPatternRange: requires the updated range to satisfy `start <= end`. With `end < start`, the source's block step `end - start + 1` is zero or negative. When `end + 1` is below the number of services, the loop then never ends. Otherwise the loop does not run, and the mutation returns with every flag cleared (start 5 and end 3 over two services, say). The requirement excludes this terminating case too. The sub-table controls never produce a reversed range (`SubTable.SetEnd` proves `RangeOk` is kept).
- Store.Table.ToggleTerminalStation: the range is kept even though the services are derived afresh, as in the source; it may then point at different services than before.
- Pattern.CheckBlocks: the model keeps the source's mark condition `!patternBroken && groupIndex > table.end` (`MarkBlockAt`). Its second conjunct always holds, because the loop starts at `end + 1`, so the specification `Checked` marks on `!patternBroken` alone.
- Store.Store.AddTable: the module-level counter `id` of store.js is a field of `Store` (`nextId`). Table ids are ordinary `nat`s, without JavaScript's number range.
- Store.Store.SetPatternRange: the mutation is given by table id. A missing id makes the source throw on `undefined`; the model requires that the id exists (`Has`).
- Store.Store.ResetPatternRange: the same requirement that the table id exists (`Has`), for the same reason.
- Store.Store.ToggleTimeIgnore: the same requirement that the table id exists (`Has`), for the same reason.
- Store.Store.ToggleTerminalStation: the same requirement that the table id exists (`Has`), for the same reason.
- Files with a blank row between two stations are outside the model. The `Store` constructor and `Store.Valid` require ids equal to positions, and `Ingest.BlankRowShiftsIds` shows such a file breaks that. For these files the source checks the terminal stops at the station id taken as a position (store.js:33), while it locates the target and the kept cells by position (store.js:22, 28).
- Ingest.StationType: a row with a single field has no type in the source (`undefined`); the model gives the empty string.
- TimeParser.RawToTime: the source's empty record has no `isConnection` key; the model sets it to false, the value it reads as.
- Timetable.FreshCell: a freshly parsed time has no `isIgnored` or `isInvalid` key in the source; the model sets both to false. Both read as false, and the first toggle of `isIgnored` gives true either way.
- The store keeps each table's services as values. The source copies every service and cell when it derives a table (`Object.assign`, spread), so no two tables share a cell object. The in-place writes of the detector are therefore modelled as new service lists assigned to the table's field.
- Ingest.GetData: the error is modelled as a `Result` value; the exception text itself is not built.
