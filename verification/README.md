# Energy store: import, queries, reports and their concurrency

The energy store keeps quarter-hour energy rows of energy communities. A row is named by its time and holds one flat
list of cells per direction: three for every consumer meter and two for every producer meter, each with a quality
mark. Messages from the meters are split by day and merged into the rows; queries and reports read the rows in order
and add them up; the work is spread over one worker per tenant, one goroutine per day, and a shared pool of database
handles. This project models these parts in Dafny and proves what they promise.

The modules follow the program:

* **Rows and ids** - `Calendar`, `RowIds` (printing and parsing), `RowRange` (the reading cursor), `SourceLines`.
* **Import** - `MeterRegistry` (index allocation), `EnergyMessages` (codes, sorting), `DaySplit`, `EnergyImport`
  (merge and write back), `MeterPeriods`, `StoredSizes` (how long rows become), `RowJobs` and `DayJobs` (the goroutines
  of one message), `WholeImport` (isolation of a whole message), `MessageStored` (what it leaves in the store, end to
  end), `CodeCells` (the same code by code, and read back by a report) and `MessageImport` (the loop over the messages
  of a point).
* **Queries** - `GapFill`, `WindowCache`, `WindowTimes`, `WindowGroups`, `AggregateQuery`, `EnergyReports`,
  `ReportTotals`, `ReportContents` and `ReportMarks` (what the reports show, told from the lines).
* **Participant reports** - `Matrices`, `DailyResults`, `DailyGroups`, `Decimals`, `ReportPeriods`,
  `ParticipantReports`, `ReportBreakdown`, `CalendarReports` (the reports told from rows and calendar).
* **Concurrency** - `Dispatcher`, `ConnectionPool` (calls one at a time), `PoolInterleaving` (calls step by step).
* **Moving a meter** - `MeterMetadata`, `MeterMove`. `Numbers` and `Characters` hold shared helpers.

Code that updates fields or loops over variables is a method or a class here, proved against functions; properties
across several calls are lemmas about these functions, and the concurrent parts are step systems whose properties
hold in every state of every run.

What the proofs say about the code, where it is not what one would expect:

* Coverage values sent for a producer overwrite the next producer (`MessageStored.CoverageSpills`), and rows outside
  the announced period lose other meters' data (`EnergyImport.UnfetchedRowIsLost`). A whole message leaves other
  meters alone exactly under the two conditions of `WholeImport.ImportIsolatedExactly`. Coverage values of the last
  producer make rows longer than the cache of the queries, which index it by the row (`StoredSizes.ImportFitsExactly`).
* An unknown metering point gets the direction of the day that is stored first, which need not be that of the message
  (`MessageImport.DirectionAgreesExactly`, `MessageImport.FirstDayDecides`).
* A value that crosses midnight is counted on both days in full (`DaySplit.SplitCarries`,
  `DaySplit.NonNegativeConservedExactly`).
* With a zone offset other than zero the query engine's fill rows are misplaced (`GapFill.ShiftedFillExactly`).
* The window cache looks one window ahead only: when the first stored row lies behind the second window, each line
  is put into just the next window until the cache has caught up (`WindowTimes.RightAfterExactly`,
  `WindowGroups.QueryOfAnyStart`).
* Hourly buckets are labelled one hour early (`EnergyReports.HourIsOneEarly`); the load curve drops a last window of a
  single line (`ReportTotals.CurveAgainstHours`).
* The first slot of a half-year or quarter report holds the first two weeks, but only the first week of a half-year
  that starts in week 52, and the first three of a quarter that starts in week 53 (`ReportPeriods.HalfYearSlots`,
  `ReportPeriods.QuarterSlots`). The last day of a participation counts only when its group is dated at midnight
  (`ReportBreakdown.CountedExactly`): a group is dated by its first stored row, the first group by the report's start.
* Closing the dispatcher can miss a worker that has not started (`Dispatcher.CloseMissesUnstarted`), and does not wait
  for the dispatcher itself (`Dispatcher.WillExecuteExactly`, `Dispatcher.CloseLeavesLoop`). A stopped worker
  loses what was accepted for its tenant and not executed, and nothing else is lost (`Dispatcher.MessageLostExactly`).
* Returning the last pool handle can close the database under another caller, or deadlock
  (`PoolInterleaving.SoundExactly`, `PoolInterleaving.StuckExactly`).
* Moving the first consumer shifts the readings of the others (`MeterMove.MoveKeepsOthersExactly`), and so does moving
  a producer, or a consumer with rows outside its period, that is neither the first nor the last
  (`MeterMove.UnmovedRowsExactly`); short rows lose quality marks (`MeterMove.MoveKeepsMarksExactly`)
  or keep one behind their values (`MeterMove.CoverageKeptExactly`), which later fetches drop
  (`SourceLines.CopyKeepsQualitiesExactly`).

`dafny verify dfyconfig.toml` checks the whole project.

## Model

| member | source | states |
|---|---|---|
| `Calendar.CivilRoundTrip` | utils/timeUtils.go:43-49 | Turning valid calendar fields into a time and reading the fields of that time gives the same fields, for every date. |
| `Calendar.DayNumberOrder` | utils/timeUtils.go:59-68 | Comparing dates field by field is the same as comparing them in time, with leap years. |
| `Calendar.DayNumberIs` | utils/timeUtils.go:43-49 | The number of a date in closed form from its fields, with the Gregorian leap years. |
| `RowIds.ParsePrinted` | utils/timeUtils.go:43-68 | Parsing a printed row id returns the time it was printed from, to the second, for every time. |
| `RowIds.RowIdText` | utils/timeUtils.go:59-68 | The text of a row id, digit by digit: four digits for the year, two for every other field, slashes between them, for years of four digits. |
| `RowIds.RowIdOrder` | utils/timeUtils.go:59-68 | For years of at most four digits, byte order of row ids is chronological order, in both directions. |
| `RowIds.RowIdOrderExactly` | utils/timeUtils.go:59-68 | All row ids of times before a given year sort in chronological order if and only if that year is 10000 at most. |
| `RowIds.FiveDigitYearsBreakOrder` | utils/timeUtils.go:60 | The pair behind the bound: two concrete times whose ids sort the wrong way round. |
| `RowRange.Range.constructor` | store/ebow/range.go:27-43 | A new cursor stands at the first key not before the prefix and will deliver every key up to the first that stops it. |
| `RowRange.Range.Next` | store/ebow/range.go:45-96 | Each call delivers exactly the next pending key, and reports the end exactly when none is left; a key shorter than the bound ends the run as well. |
| `RowRange.ReadAll` | store/importFunctions.go:206-218 | Reading until the cursor ends yields all keys of the range, in order. |
| `RowRange.KeyAgainstBound` | store/ebow/range.go:61-67 | For years of four digits at most, a stored row key lies before a day bound exactly when its day is earlier, and stops the cursor there exactly when its day is later. |
| `RowRange.RangeIsWholeDays` | store/ebow/rowdata.go:178-180 | For years of four digits at most, reading from one day through another delivers exactly the rows of those whole days, in time order, and no key of another bucket. |
| `SourceLines.Insert` | utils/counterpoint.go:49-69 | Writing a cell changes this cell only, whether or not the slice has to grow. |
| `SourceLines.CopyKeepsCells` | model/sourcemodel.go:11-24 | Copying a row keeps all values, and all marks when none lies behind the values; the copy is such a row again. |
| `SourceLines.CopyKeepsQualitiesExactly` | model/sourcemodel.go:16-22 | Copying loses a quality mark exactly when the row has one behind the end of its values. |
| `MeterRegistry.CalcMetaInfo` | store/rawDataHelper.go:31-53 | The loop over the stored meters returns, per direction, their number and their greatest index (-1 for none). |
| `MeterRegistry.MetaStore.PrepareMetaInfoMap` | store/rawDataHelper.go:55-115 | A known meter changes nothing; an unknown one gets the index behind the greatest of its direction, and all others keep theirs. |
| `MeterRegistry.MetaStore.RegisterAll` | excel/ExcelSource.go:372-405 | The loop over a sheet, with its own running counters, leaves exactly the meters of registering the entries one after another; dense indices stay dense. |
| `MeterRegistry.RegistrationsDetermine` | store/rawDataHelper.go:55-115 | Registering a list of points one after another has one possible outcome: names, directions and indices. |
| `MeterRegistry.RegisterKeepsDense` | store/rawDataHelper.go:83-106 | If the indices of a direction are 0 to n-1, each once, they still are after a registration. |
| `MeterRegistry.RunIsDense` | store/rawDataHelper.go:55-115 | From an empty store, after any sequence of registrations, the indices of each direction are exactly 0 to n-1, and earlier meters keep theirs. |
| `MeterRegistry.CellsAreDisjoint` | store/importFunctions.go:167-204 | Two registered meters never own the same cell. |
| `EnergyMessages.ExamineDirection` | utils/counterpoint.go:37-47 | A message belongs to a producer exactly when one of its codes is a generation or surplus code. |
| `EnergyMessages.OrganizeMetaCodeImport` | store/importFunctions.go:101-116 | The loop lists the base codes in message order and behind them the total codes in message order, without the coverage total. |
| `CodeCells.TextsAreMarks` | utils/counterpoint.go:85-95 | L1, L2 and L3, in either case, are the marks 1, 2 and 3; any other text is 0. |
| `EnergyMessages.ListedExactly` | store/importFunctions.go:104-113 | An entry of the message is listed exactly when its code is known and is not the coverage total, once, with its own position and cell offset. |
| `EnergyMessages.SortedIsSort` | store/importFunctions.go:127-133 | The values are put in the order of their seconds and none is lost or duplicated. |
| `EnergyMessages.SumRowIgnoresOrder` | store/importFunctions.go:127-133 | The sum of a row does not depend on the order in which values come, so an unstable sort cannot change it. |
| `EnergyImport.ImportBuffer.ImportCode` | store/importFunctions.go:139-159 | The loop over the values of a code, with its set of visited rows, computes ImportValues; no write or addition is out of bounds. |
| `EnergyImport.ImportBuffer.ImportEnergyValues` | store/importFunctions.go:118-165 | The loop over all listed codes computes ImportCodes. |
| `EnergyImport.ImportValuesCells` | store/importFunctions.go:140-159 | After one code every cell of every row is known: the code's own cell holds the sum of all values of the row, its mark the first value's, every other cell what it held. |
| `EnergyImport.ImportCodesCells` | store/importFunctions.go:118-204 | After all codes each cell holds the row sum of the last listed code with this offset that has a value for the row, or else what it held; rows exist exactly when they did or a value maps to them. |
| `EnergyImport.BowStorage.StoreEnergy` | store/importFunctions.go:14-99 | Registers the meter if needed, fetches the days of the message, merges the codes, writes all fetched and created rows back, and widens the period of this meter and of no other. |
| `EnergyImport.StoreCells` | store/importFunctions.go:35-99 | When every row of the message lies in the fetched days, the stored cells afterwards are what the codes say about the stored cells before, marks included. |
| `EnergyImport.IsolatedExactly` | store/importFunctions.go:41-87 | A message touches nothing but its own meter's cells, in every store, if and only if all its rows are fetched and no coverage code is sent for a producer. |
| `EnergyImport.UnfetchedRowIsLost` | store/importFunctions.go:45-87 | A row that the message names outside the fetched days loses all cells of the other direction. |
| `EnergyImport.StoreKeepsCovered` | store/importFunctions.go:198-202 | Stores never leave a quality mark behind the values, so fetching loses none. |
| `EnergyImport.StoreTwice` | store/importFunctions.go:14-99 | Importing the same message again changes no row, no cell and no mark, for every message and every store. |
| `EnergyImport.StoresCommute` | store/importFunctions.go:14-99 | With dense indices and no mark behind the values, messages of two different registered meters give the same cells and marks in either order when both fetch their rows and neither sends coverage for a producer. |
| `MeterPeriods.UpdateMetaCP` | store/importFunctions.go:220-236 | The statements widen a period to a message that starts before it or ends behind it; a missing start counts as the current time. |
| `MeterPeriods.PeriodIsHull` | store/importFunctions.go:220-236 | If no message starts after it is stored, the period of a new meter after any messages, in any order, goes from the earliest start to the latest end. |
| `MeterPeriods.StartUnsetExactly` | store/importFunctions.go:223-229 | A new meter is left without a start if and only if no message starts before it is stored. |
| `MeterPeriods.EndUnsetExactly` | store/importFunctions.go:230-233 | It is left without an end if and only if every message ends in the first second of 1970 or before. |
| `StoredSizes.StoreFitsExactly` | store/importFunctions.go:14-99 | Storing a message keeps every row of every store as short as the query cache if and only if no coverage value is sent for the last producer. |
| `StoredSizes.ImportFitsExactly` | store/engine.go:222-249 | The import of a whole message does so if and only if no coverage value inside the message is sent for the last producer; the cache is indexed out of bounds by a longer row. |
| `StoredSizes.RunFits` | store/importFunctions.go:14-99 | In every state of every run of stores from the empty database in which that never happens: indices are dense, no mark lies behind the values, and all rows fit the cache of the meters registered so far. |
| `StoredSizes.StoredLength` | store/importFunctions.go:118-204 | The exact length of a stored row and of its marks, in both directions: it grows to the last written cell only; a new one starts with one cell for each meter, and with one mark for each consumer. |
| `DaySplit.SplitEnergyByDay` | mqttclient/energyExecutor.go:96-144 | The three nested loops compute the list of daily messages Split. |
| `DaySplit.SplitTiles` | mqttclient/energyExecutor.go:103-123 | The pieces of a value, in the order of the days, tile exactly its part inside the message: no gap, no overlap; each keeps the full amount and the method. |
| `DaySplit.InOneDayOnce` | mqttclient/energyExecutor.go:111-123 | A value inside the message that crosses no midnight appears exactly once and unchanged. |
| `DaySplit.SplitConservesEnergy` | mqttclient/energyExecutor.go:96-144 | If no value crosses a midnight or leaves the message, the daily messages carry the same energy per code. |
| `DaySplit.PieceCount` | mqttclient/energyExecutor.go:102-139 | A value is cut into one piece for each local day that its part inside the message touches, counted in closed form from its times. |
| `DaySplit.SplitCarries` | mqttclient/energyExecutor.go:96-144 | For every message the daily messages carry, per code, each value once for each local day it touches. |
| `DaySplit.ConservedExactly` | mqttclient/energyExecutor.go:96-144 | For every message the energy of a code is conserved if and only if the values outside the message amount to the repetitions of the values that cross midnights. |
| `DaySplit.NonNegativeConservedExactly` | mqttclient/energyExecutor.go:96-144 | For non-negative values none of which lies outside the message: conserved if and only if every non-zero value stays in one local day. |
| `DaySplit.LossCancelsRepetition` | mqttclient/energyExecutor.go:116-122 | A concrete message shows that this needs the second condition: a lost value makes up for a repeated one. |
| `DaySplit.OneValueConservedExactly` | mqttclient/energyExecutor.go:116-122 | A single value of any sign is conserved if and only if it is zero or its part inside the message lies in one local day. |
| `RowJobs.RunsAreSerialisable` | mqttclient/energyExecutor.go:155-167 | Any interleaving of jobs that fetch once and write their rows one by one ends like running them in sequence, when no job reads or writes another job's rows. |
| `DayJobs.SplitIsDaily` | mqttclient/energyExecutor.go:102-139 | Each daily message stays inside its own day, and the days are different. |
| `DayJobs.TasksAreLocal` | store/importFunctions.go:45-87 | Storing a daily message reads and writes rows of its own day only. |
| `DayJobs.ImportIsSerialisable` | mqttclient/energyExecutor.go:146-170 | Whatever the interleaving of the goroutines of one message, the rows end as if the days had been stored one after another. |
| `WholeImport.DailyFetchesExactly` | mqttclient/energyExecutor.go:134-140 | A daily message fetches all its rows if and only if the end it announces is not before its day. |
| `WholeImport.EndStaysOnDay` | mqttclient/energyExecutor.go:134-140 | The announced end lies on the day if and only if the message goes on for a quarter of an hour behind this midnight. |
| `WholeImport.OrganizedVisits` | store/importFunctions.go:101-165 | A row is visited exactly when an entry with an imported code has a value for it. |
| `WholeImport.GroupsFetchExactly` | mqttclient/energyExecutor.go:96-144 | All daily messages fetch all their rows if and only if no imported value reaches into a last local day of which the message covers less than a quarter of an hour. |
| `WholeImport.GroupsFitExactly` | mqttclient/energyExecutor.go:96-144 | The codes of all daily messages fit if and only if no coverage value inside the message is sent for a producer. |
| `WholeImport.ImportIsolatedExactly` | mqttclient/energyExecutor.go:146-170 | The import of a whole message leaves every cell of every other meter alone, in every store, if and only if both conditions on the message hold. |
| `WholeImport.NoLostData` | mqttclient/energyExecutor.go:134-140 | A message on the quarter-hour grid with fitting codes meets them: every daily message fetches its rows and other meters stay as they are. |
| `MessageImport.StoreDays` | mqttclient/energyExecutor.go:155-163 | Storing the daily messages one after another leaves StoreAll, with the point registered by the first of them, and its period widened by all. |
| `MessageImport.ImportMessages` | mqttclient/energyExecutor.go:146-170 | The loop over the messages of a point splits each and stores its days: the state is a chain of such imports. |
| `MessageImport.DirectionAgreesExactly` | store/importFunctions.go:16-19 | A daily message gives an unknown point the direction of the whole message if and only if that has no generation code, or a generation value on this day. |
| `MessageImport.FirstDayDecides` | store/importFunctions.go:16-19 | Two orders of the days of a message register an unknown point alike if and only if their first days have the same direction. |
| `MessageStored.ImportStoresParts` | mqttclient/energyExecutor.go:96-170 | End to end, for every message and every store: every cell of a row ends with the value and, in a store without marks behind its values, the mark that the part of the message on the row's day says - of the last listed code with a value for the row, or what was there - and exactly the rows exist that did or that get an imported value. A row of a last day that is covered for less than a quarter of an hour is written as if it had been empty. |
| `MessageStored.ImportStoresMessage` | mqttclient/energyExecutor.go:96-170 | When no value crosses a midnight or leaves the message and no imported value reaches into such a last day, that is what the unsplit message says. |
| `CodeCells.ImportStoresCodes` | store/importFunctions.go:14-204 | End to end, code by code: the first cell of a meter holds consumption or generation, the second the share or the surplus, the third the coverage - what the last entry with the participation factor says about the row, else the last one without it, else what was there. |
| `CodeCells.LastSays` | store/importFunctions.go:118-165 | What the last such entry says is the sum of its values for the row, with the mark of the first of them. |
| `CodeCells.CodeIsStored` | utils/counterpoint.go:98-127 | A single entry for a cell: after the store the cell, at three or two times the index plus 0, 1 or 2, holds exactly the sum of its values for the row and the mark of the first. |
| `CodeCells.MessageReadBack` | store/intraday_function.go:48-71 | A message stored into an empty row and read back by a report: its consumption is consumed, its share allocated, its coverage distributed; its generation is produced and its surplus unused, and nothing else is shown. |
| `MessageStored.CoverageSpills` | utils/counterpoint.go:120-122 | A coverage value sent for a producer ends up, with its mark, in the first cell of the next producer, whatever was there. |
| `GapFill.Run` | excel/EnergyExport.go:259-284 | The reading loop with its previous time hands on exactly Fed: the rows and the fill rows between them. |
| `GapFill.FillGap` | excel/EnergyExport.go:263-276 | The inner loop hands on one zero row for each missing quarter of an hour, and none when the step is right or backwards. |
| `GapFill.MissingIs` | store/engine.go:289-300 | The number of fill rows between two rows of any times: the whole quarters of an hour between their minutes, less one; none when there is no whole one, or the second row is earlier. |
| `GapFill.FillLineIsZero` | store/engine.go:300-304 | A fill row has all cells and marks of all registered meters, all zero. |
| `GapFill.FedIsComplete` | excel/EnergyExport.go:259-284 | For rows on the grid in ascending order, exactly one line for every quarter of an hour from first to last is handed on: the stored row, or an all-zero row where there is none. |
| `GapFill.ShiftedFillExactly` | store/engine.go:289-319 | The query engine, which prints fill rows in local time, hands on a contiguous series if and only if the zone offset is zero or nothing was missing. |
| `WindowCache.QoVMonoid` | store/aggregate_function.go:112-120 | Marks are joined associatively and commutatively with unit 1. |
| `WindowCache.Cache.InitCache` | store/engine.go:200-220 | The cache starts with an empty full-size window at the start time, all marks 1, and no id. |
| `WindowCache.Cache.AddToCache` | store/engine.go:222-249 | The line's values are added, its marks joined (0 where it has none), its id taken; the rest of the window stays. |
| `WindowCache.Cache.CacheLine` | store/engine.go:181-198 | A line inside the window is added; any other line hands the window on and opens just the next one with itself. |
| `WindowCache.WindowsConserve` | store/engine.go:181-249 | For any line sequence, ordered or not, the windows of a run together hold each cell's sum over all lines. |
| `WindowTimes.RightAfterExactly` | store/engine.go:181-198 | For a contiguous feed of any lines and windows of at least a quarter of an hour: after line n the open window is the one the line lies in if and only if the line is not before the start and some line j up to it lies before the end of window j. Until then each line moves the cache on by one window. |
| `WindowTimes.OnTimeExactly` | store/engine.go:186-196 | So after every line if and only if the first line lies in the first or the second window. |
| `WindowGroups.WindowsOfAnyStart` | store/engine.go:181-249 | Wherever such a feed starts, for lines of any length up to the cache: window w starts at its bound and holds exactly the sums and marks of the lines that belong to it - line n to the window it lies in, but to window n+1 at most, and lines before the start to the first. |
| `WindowGroups.WindowsGroupByTime` | store/engine.go:181-249 | When the first line lies in the first or the second window, these are the lines between its bounds. |
| `WindowCache.FullLinesJoin` | store/engine.go:222-249 | When all lines have all cells, the mark of a window is the plain join of the marks in it. |
| `WindowGroups.QueryOfAnyStart` | store/engine.go:255-320 | Gap filler and cache together, without a zone offset and wherever the first stored row lies: every window of a query starts at its bound and holds exactly the sums of the stored rows that belong to it, of any length, and the marks of the lines it was fed. |
| `WindowGroups.QueryGroupsStoredRows` | store/engine.go:255-320 | When the first stored row lies in the first or the second window, these are the stored rows between its bounds. |
| `AggregateQuery.Aggregate.AddToResult` | store/default_function.go:14-45 | Each requested known meter gets one more entry with its own slots of the line; unknown ones are skipped. |
| `AggregateQuery.Aggregate.Query` | store/aggregate_function.go:72-110 | Start, lines and finish leave the entries of all windows of the run, the last one included. |
| `AggregateQuery.AggregateConserves` | store/aggregate_function.go:86-110 | For any line order and any times, a requested meter's slots sum up to its cells over all input lines, once per request. |
| `AggregateQuery.RequestIsAnswered` | store/default_function.go:14-45 | A known meter that is requested n times gets n entries for each window in order, with the time of the window, the three or two cells of the meter in it, their marks (0 where the line has no value for the meter), and the direction of the meter. |
| `AggregateQuery.NoOtherAnswers` | store/default_function.go:16-19 | Unknown meters and those not requested get no answer. |
| `EnergyReports.AddLineTo` | store/loadCurve_function.go:99-123 | The two loops add all whole meters of a line to a report, with the report's own treatment of missing marks. |
| `ReportContents.LineFields` | store/loadCurve_function.go:99-123 | Each field of a report grows by exactly its cell of every whole meter of the line; the summary never shows unused energy. |
| `ReportMarks.LineMarks` | store/summary_function.go:38-69 | The marks of a report after a line: the join over the first marks of its meters; the summary skips a meter without a mark behind it, the load curve starts again from 0 when the last meter has no mark. |
| `EnergyReports.EnergySummary.Query` | store/summary_function.go:38-63 | The summary of a run is all lines added one by one. |
| `ReportMarks.SummaryMark` | store/summary_function.go:38-69 | The summary shows the greatest mark other than 1 of those it joins, over all lines, and 0 when there is none. |
| `EnergyReports.IntraDay.Query` | store/intraday_function.go:23-34 | The hourly result is every window of the run added to its bucket. |
| `EnergyReports.IntraDay.GetResult` | store/intraday_function.go:36-46 | The loop shows 24 reports, an empty one where nothing was counted, and each field summed over them is what was counted in all buckets. |
| `EnergyReports.HourIsOneEarly` | store/intraday_function.go:49 | A window that starts with hour h is shown in bucket h-1, and in bucket 23 for the first hour. |
| `ReportContents.BucketHolds` | store/intraday_function.go:48-71 | Bucket h holds, field by field, exactly the windows that start in hour h+1 of the day, bucket 23 those of hour 0. |
| `ReportContents.ReportHours` | store/intraday_function.go:15-71 | A whole run: entry h of the 24 shown reports is what the windows of hour h+1 hold. |
| `ReportContents.HoursShowLines` | store/intraday_function.go:15-71 | On a feed that keeps to its windows from a full hour on, entry h shows the cells of all registered meters over exactly the lines of hour h+1. |
| `ReportContents.HoursShowRows` | store/engine.go:255-320 | From the stored rows to the report: for rows of any length on the grid, the first of them within two hours of the start, entry h shows all rows of hour h+1 and nothing else. |
| `ReportContents.WindowsShowLines` | store/engine.go:181-249 | The reason, for any windows and any grouping of times that they respect: the windows of a group hold exactly the cells of the lines of the group. |
| `ReportMarks.HourMark` | store/intraday_function.go:48-71 | Each hour shows the greatest mark other than 1 of its windows, and 0 when there is none. |
| `EnergyReports.LoadCurve.HandleEnd` | store/loadCurve_function.go:71-76 | The last window is added, unless it has no id; then nothing changes. |
| `EnergyReports.LoadCurve.Query` | store/loadCurve_function.go:61-146 | The curve is every window handed on during the run, and the last one if it has an id, each series with the member counts at the window added to it last. |
| `ReportContents.SeriesHolds` | store/loadCurve_function.go:89-130 | Each named series holds, field by field, exactly the windows with its name, and the member counts at the last of them. |
| `ReportContents.SeriesExactly` | store/loadCurve_function.go:89-97 | There is a series for each name of a window and for no other. |
| `ReportContents.RawWindowsAre` | store/engine.go:181-184 | Without windows each line is handed on at its own time. |
| `ReportMarks.SeriesMark` | store/loadCurve_function.go:99-123 | For windows with all their marks each series shows the greatest mark other than 1 of its windows, and 0 when there is none. |
| `MeterPeriods.CountMembers` | store/loadCurve_function.go:132-146 | The loop counts the members whose period overlaps a stretch of time. |
| `MeterPeriods.MembersAre` | store/loadCurve_function.go:132-146 | That is the number of meters whose period starts before the end and ends behind the start. |
| `MeterPeriods.MissingPeriod` | store/engine.go:43-51 | A missing text stands for the start of 1970; a meter without a period is never counted at a single time. |
| `MeterPeriods.MemberExactly` | store/loadCurve_function.go:125-127 | The load curve asks at a single time: a meter is counted if and only if this time lies behind the earliest start and before the latest end of its messages. |
| `ReportTotals.HoursAgainstSummary` | store/intraday_function.go:48-71 | For every run the 24 buckets exceed the summary by exactly the cells of incomplete meters at the end of lines. |
| `ReportTotals.HoursEqualSummary` | store/summary_function.go:38-63 | For lines of whole meters both show the same consumed, allocated, distributed and produced energy, for every run. |
| `ReportTotals.RawCurveEqualsSummary` | store/loadCurve_function.go:89-130 | Without windows the load curve shows the summary's totals, for all lines. |
| `ReportTotals.IdIsLostExactly` | store/loadCurve_function.go:72 | The last window has no id if and only if the last line opened it. |
| `ReportTotals.CurveAgainstHours` | store/loadCurve_function.go:71-123 | With windows the load curve misses exactly the last line's cells when that line opened a window, and nothing otherwise. |
| `Matrices.Matrix.EnsureSize` | model/QuotaMatrix.go:127-135 | Grows to the end of the row of the index, keeps every cell, and counts the rows; a valid matrix stays valid and never loses rows. |
| `Matrices.Matrix.SetElm` | model/QuotaMatrix.go:71-75 | Changes one cell only, growing the storage when needed. |
| `Matrices.Matrix.Add` | model/QuotaMatrix.go:169-206 | Cell by cell sum over the larger shape, missing cells counting as zero; a zero-valued receiver takes the shape of its summand; refused exactly when the rows are not equally wide, and then nothing changes. A matrix may be added to itself. |
| `Matrices.Matrix.RoundToFixed` | model/QuotaMatrix.go:229-237 | Every declared cell is rounded; the size and the cells stored behind them stay. |
| `Matrices.Multiply` | model/QuotaMatrix.go:263-283 | Each cell is the sum of products of its row and column. |
| `Matrices.IndexDistinct` | model/QuotaMatrix.go:13-16 | Different cells have different places in the flat list. |
| `DailyResults.ConvertLineToMatrix` | utils/counterpoint.go:143-155 | For rows of any length, including empty ones, all cells appear as matrix rows of 3 and 2. |
| `DailyResults.UnitSelects` | calculation/AllocateLine.go:9-22 | Multiplying by a unit column selects that column. |
| `DailyResults.AllocDynamicV2` | calculation/AllocateLine.go:7-25 | Rewriting one unit column between the products returns the consumers' columns 2 and 1 and the producers' column 1. |
| `DailyResults.CalcResults.AppendResults` | calculation/EEGCalculationV2.go:41-90 | For a line of any length every result grows at every index s by exactly the cell 3s, 3s+1, 3s+2, 2s or 2s+1; the running total stays the sum of the produced column. |
| `DailyGroups.GroupsConserve` | calculation/EEGCalculationV2.go:219-244 | Each readable row is summed into exactly one day group: the groups together hold all energy of every cell. |
| `DailyGroups.GroupsAreDays` | calculation/EEGCalculationV2.go:231-237 | All rows of a group lie on its day of the year, neighbouring groups on different ones; all but the first are dated by their first row. |
| `DailyGroups.YearDaysApart` | calculation/EEGCalculationV2.go:231 | Two times of one calendar year have the same day of the year exactly when they lie on the same day. |
| `CalendarReports.GroupsAreCalendarDays` | calculation/EEGCalculationV2.go:219-244 | For rows of one calendar year, in any order: all rows of a group lie on one calendar day, and neighbouring groups on different ones. |
| `CalendarReports.GroupsByDay` | calculation/EEGCalculationV2.go:219-244 | In ascending order there is one group for each day with readable rows, and one for the start, and it holds what the rows of this day hold. |
| `DailyGroups.MidnightGroups` | calculation/EEGCalculationV2.go:231-237 | If every day's first stored row is at midnight, every group is dated at midnight. |
| `ReportPeriods.WrappedIsModulo` | calculation/EEGCalculationV2.go:284-286 | Go's doubled remainder wraps any distance like the mathematical one, backwards too. |
| `ReportPeriods.SlotsInRange` | calculation/EEGCalculationV2.go:259-337 | Slots are at least 1 and at most 31, 52, 51 or 12. |
| `ReportPeriods.WeeksStartOnMonday` | calculation/EEGCalculationV2.go:282 | Weeks change from Sunday to Monday: 5 January 1970 was a Monday. |
| `ReportPeriods.WeeksShareSlot` | calculation/EEGCalculationV2.go:282-313 | For every start week and number of weeks two weeks share a slot if and only if their wrapped distances from the start are equal or both at most one. |
| `ReportPeriods.WeekOfNewYear` | calculation/EEGCalculationV2.go:279-280 | The ISO week of 1 January by its weekday and the year before: 1, 52 or 53. |
| `ReportPeriods.HalfYearSlots` | calculation/EEGCalculationV2.go:273-287 | Two days of a half-year share a slot if and only if they lie in one week or both in the weeks of slot 1: the first two, but the first alone when the period starts in week 52. |
| `ReportPeriods.QuarterSlots` | calculation/EEGCalculationV2.go:300-313 | Two days of a quarter share a slot if and only if they lie in one week or both in the weeks of slot 1: the first two, but the first three when the period starts in week 53. |
| `ReportPeriods.HalfYearSlotIs` | calculation/EEGCalculationV2.go:273-287 | The slot of a day k weeks behind the first week of a half-year: 1 for the first week, k+1 when it starts in week 52 or the day lies in week 1 of the next year, and k otherwise. |
| `ReportPeriods.QuarterSlotIs` | calculation/EEGCalculationV2.go:300-313 | The same for a quarter: 1 for the first week, k-1 from the third week on when it starts in week 53, and k otherwise. |
| `ReportPeriods.MonthSlotIsDay` | calculation/EEGCalculationV2.go:259-262 | The slot of a day of a month is its number. |
| `ReportPeriods.YearSlotIsMonth` | calculation/EEGCalculationV2.go:329-338 | The slot of a day of a year is its month. |
| `ReportPeriods.MonthsKeepApart` | calculation/EEGCalculationV2.go:333-338 | Two months share a slot of the yearly report exactly when they are the same month. |
| `ParticipantReports.ReportValues.AppendEnergyToParticipantMeter` | calculation/EEGCalculationV2.go:400-452 | Adds a day to every report that participates on it and to no other, although the daily columns are rounded in place between the reports; the totals grow with the summaries. |
| `ParticipantReports.ReportValues.ReadRow` | calculation/EEGCalculationV2.go:231-241 | A row on another day of the year closes the day with its callback and opens a new one; any row is summed into the open day. |
| `ParticipantReports.ReportValues.CalcParticipantReport` | calculation/EEGCalculationV2.go:342-398 | Reading the rows once leaves every report as the fold over the day groups, rounded, and both totals as the sum over all reports. |
| `Decimals.RoundsToGrid` | utils/sliceUtils.go:62-65 | Rounding to six digits lands on six-digit numbers and leaves exactly those alone. |
| `Decimals.RoundExactly` | utils/sliceUtils.go:62-65 | Rounding gives the nearest integer, and of two the one farther from zero. |
| `Decimals.TiesRoundAway` | utils/sliceUtils.go:62-65 | A seventh digit 5 is rounded away from zero, for both signs. |
| `Decimals.Round6Bound` | utils/sliceUtils.go:62-65 | Rounding moves a value by at most half a millionth. |
| `ReportBreakdown.ReportHoldsEnergy` | calculation/EEGCalculationV2.go:347-390 | After any days the summary, every slot and the sum of all slots have grown by exactly the energy of the counted days. |
| `ReportBreakdown.ConsumerReportAgrees` | calculation/EEGCalculationV2.go:352-361 | A consumer's summary equals the sum of its breakdown exactly, and each slot holds exactly the days that fall into it. |
| `ReportBreakdown.ProducerReportAgrees` | calculation/EEGCalculationV2.go:371-378 | A producer's breakdown holds the exact energy and the summary is its sum, rounded once. |
| `ReportBreakdown.SummaryIsClose` | calculation/EEGCalculationV2.go:342-427 | The finished summary of a consumer differs from the stored energy of the counted days by at most half a millionth for each of them, that of a producer by at most half a millionth in all. |
| `CalendarReports.ConsumerReportShows` | calculation/EEGCalculationV2.go:219-432 | From rows of one calendar year in order to a finished consumer report: consumption, allocation and utilization are the meter's first, second and third cell, summed over each calendar day, rounded and added up from the first day to the last, which is included only when a row (or the report) starts it at midnight; each slot holds exactly those of its days. |
| `CalendarReports.ProducerReportShows` | calculation/EEGCalculationV2.go:219-452 | The same for a producer: production and allocation are its two cells, exact in the breakdown and rounded once in the summary. |
| `ReportBreakdown.SplitParticipation` | calculation/EEGCalculationV2.go:413-416 | Splitting a participation at a day loses exactly the days dated behind midnight of the first part's last day. |
| `ReportBreakdown.ParticipationsAdd` | calculation/EEGCalculationV2.go:410-432 | If every day's first stored row is at midnight, the reports of two adjacent ranges add up to the unsplit one. |
| `ReportBreakdown.CountedExactly` | calculation/EEGCalculationV2.go:413-416 | A group counts if and only if it is dated between the two days of the participation, on the last of them only when dated at midnight. |
| `ReportBreakdown.Report` | calculation/EEGCalculationV2.go:342-452 | From empty reports the reported total consumption is exactly the sum of the consumer summaries, and the total production that of the producers up to half a millionth per report. |
| `Dispatcher.StepKeeps` | mqttclient/dispatcher.go:133-215 | Every step of the dispatcher, a worker or the shutdown keeps the invariant. |
| `Dispatcher.DispatcherIsSafe` | mqttclient/dispatcher.go:133-177 | In every state of every run: at most one worker per tenant, at most 10 queued messages, and a tenant's executed, running, queued and held messages are its accepted messages in order; the executed ones are a prefix, also after shutdown. |
| `Dispatcher.TenantIsThirdPart` | mqttclient/mqttClient.go:19-25 | Whatever the other parts of a topic, its worker is named by the third part, letter by letter in capitals. |
| `Dispatcher.ShortTopicHasNoTenant` | mqttclient/mqttClient.go:19-25 | A topic with fewer than three slashes belongs to the worker without a name. |
| `Dispatcher.OpenExactly` | mqttclient/dispatcher.go:192-215 | In every state of every run a tenant's databases are open if and only if its worker has executed a message and neither its timer fired nor it stopped since. |
| `Dispatcher.ExecutedGrows` | mqttclient/dispatcher.go:199-215 | What has been executed stays so in all later states. |
| `Dispatcher.WillExecuteExactly` | mqttclient/dispatcher.go:133-215 | In every state, whether Close was called, has returned or not: another message can be executed if and only if a worker has not started or has something to do, or the dispatcher is in its loop and not holding a message for a stopped worker with a full queue. |
| `Dispatcher.MessageLostExactly` | mqttclient/dispatcher.go:133-215 | In every state an accepted message that was not executed yet, wherever it is held, can still be executed if and only if the worker of its tenant has not stopped. |
| `Dispatcher.NothingLostBeforeCancel` | mqttclient/dispatcher.go:133-215 | As long as Close has not cancelled the workers, every accepted message can still be executed. |
| `Dispatcher.CloseMissesUnstarted` | mqttclient/dispatcher.go:152-156 | After Close has returned and the dispatcher has ended, messages are still executed if and only if a worker was spawned that had not started. |
| `Dispatcher.CloseReturnsEarly` | mqttclient/dispatcher.go:172-194 | A concrete run for any message in which that happens. |
| `Dispatcher.CloseLeavesLoop` | mqttclient/dispatcher.go:133-156 | A concrete run in which Close returns while the dispatcher still accepts messages, which are executed. |
| `ConnectionPool.DbPoolObject.Get` | store/ebow/pool.go:55-75 | The first idle handle is handed out on the open database; the database is opened exactly when no handle was out. |
| `ConnectionPool.DbPoolObject.Put` | store/ebow/pool.go:77-105 | The handle comes back and the database is closed exactly when it was the last one; a handle too many is dropped. |
| `PoolInterleaving.HandlesAreAccounted` | store/ebow/pool.go:55-95 | However the steps of Get and Put interleave, idle, outstanding and moving handles always make up the capacity. |
| `PoolInterleaving.SoundExactly` | store/ebow/pool.go:85-91 | All handles in use refer to the open database in all states of a run if and only if every close still finds the pool full. |
| `PoolInterleaving.ClosedUnderCaller` | store/ebow/pool.go:86-90 | A concrete run in which a caller is left with a handle on a closed database. |
| `PoolInterleaving.StuckExactly` | store/ebow/pool.go:55-95 | The pool is stuck if and only if a late close waits for the lock of a Get that waits for a handle. |
| `PoolInterleaving.LateCloseDeadlocks` | store/ebow/pool.go:150-170 | A concrete run into that deadlock with a single handle. |
| `MeterMetadata.MinOf` | cmd/functions.go:47-57 | The result is one of the arguments and none is smaller. |
| `MeterMetadata.SortSorts` | cmd/functions.go:19-20 | The stable sort by index is a permutation in ascending order. |
| `MeterMetadata.ReorganizeMeta` | cmd/functions.go:8-45 | Each direction is numbered anew in the order of the old indices, from the first one's index on; names and directions stay. |
| `MeterMetadata.UpdateMeta` | cmd/move.go:192-212 | The named meter takes its new direction and index, then everything is numbered anew. |
| `MeterMetadata.NextIndexIsCount` | cmd/move.go:119-160 | With dense indices the next free index of a direction is its number of meters. |
| `MeterMetadata.MovedIndices` | cmd/move.go:192-212 | Moving a meter, either way, makes it the last of the other direction, keeps the indices there, and moves the meters behind it down by one, except when the first one was moved. |
| `MeterMove.MoveToProducer` | cmd/move.go:79-103 | The statements that insert, cut and insert again compute MovedLine; nothing is out of bounds when the meter's first two cells and marks are stored. |
| `MeterMove.ConsumersClose` | cmd/move.go:81-87 | Every other consumer finds its three values one meter further down when it was behind the moved one, and in place otherwise. |
| `MeterMove.MovedMeterReads` | cmd/move.go:84-94 | The moved meter's first two values and marks are read at its new producer index. |
| `MeterMove.MoveKeepsOthersExactly` | cmd/move.go:79-103 | All other meters read every rewritten row as before if and only if the moved consumer was not the first, or was the only one. |
| `MeterMove.MoveKeepsMarksExactly` | cmd/move.go:79-103 | For rows of a given length all quality marks of the others survive if and only if the moved consumer is the last one, or the row holds another whole meter behind it - for the first consumer: if it holds no other. |
| `MeterMove.MoveKeepsCoverage` | cmd/move.go:87-96 | A moved row keeps its marks inside its values if and only if none of the marks that the shorter cut leaves behind is set. |
| `MeterMove.CoverageKeptExactly` | cmd/move.go:87-96 | So rows of a given length keep it, whatever their marks, if and only if they hold another whole meter behind the moved one. |
| `MeterMove.UnmovedRowsExactly` | cmd/move.go:30-76 | Rows that are not rewritten - those outside a consumer's period, and all rows of a producer - are read rightly by all other meters through the new metadata if and only if the moved meter was the first or the last of its direction. |
| `MeterMove.MovedProducerIsEmpty` | cmd/move.go:30-77 | A moved producer reads zeros at its new place in every row not longer than the consumers before the move. |
| `MeterMove.HandleMove` | cmd/move.go:30-77 | An unknown name changes nothing; a consumer's rows are all rewritten and the metadata moved; for a producer only the metadata is moved. |

## Left out

- Daylight saving and time zones: local time has one fixed offset; the only trace of a clock change that is kept is that values of the same local time are summed.
- Row ids are identified with the local second they print once `RowIds.RowIdOrder` and `RowIds.ParsePrinted` are proved; ids with fields outside the calendar, which the date functions would normalise, are not modelled.
- Floating point: energy values are exact reals; only the explicit rounding to six digits is modelled.
- Rows are values: sharing of slices between rows and buffers is not modelled, and neither is the row storage below the sorted keys (transactions, codecs, decoding errors).
- EnergyMessages.SortedIsSort: the sort is stable here and not in the program, because the order the program gives to equal seconds is not specified; the sums do not depend on it (`EnergyMessages.SumRowIgnoresOrder`), the mark kept for a repeated local time does.
- The goroutines of one message also update the meter's metadata side by side; the interleaving results are about row data, and registration and periods are modelled for days stored one after another.
- The texts of a meter's period are identified with the local second they show; a query's table of periods by index is a list with one entry for each meter.
- The flag for extended codes, which no caller sets, in the functions that write energy values.
- Errors of callbacks, of opening and of writing the database: they end the calls and are not modelled.
- Query callbacks are modelled as windows handed on; the time stamp of a result is the window's time in seconds.
- The series names and sorted output of the load curve; names are an arbitrary function of the window's time.
- Participant reports are one flat list; the grouping by participant and the report ids are left out. Reports without data are given as empty ones.
- Results created from their first line: newly made results always have their columns.
- The dispatcher's path for releasing a worker, on whose channel nothing is ever sent; timers may fire at any time.
- Pool.Close, failing database opens, and the table of pools by community; one pool is modelled.
- REST, GraphQL, mail, Excel cells and styles, authentication, configuration and command-line handling: plumbing and library calls.
