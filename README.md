# Trade journal accounting — a Dafny model

This project models the bookkeeping core of a forex trade journal. It covers:

- the three backends;
- the database-URL selection;
- the management CLI's source-text edits;
- the admin panel's CSV export;
- two rules of the web front end.

The backends are:

- `backend/app.py`, relational, through an ORM;
- `backend/app_simple.py`, a JSON file holding a list of records;
- `backend/app_mongo.py`, a document database.

A trade carries these fields:

- symbol, direction, entry price, an optional exit price and lot size;
- five timeframe confluence scores and their rounded mean, `total_confluence`;
- an optional risk/reward and optional notes;
- a status (OPEN, CLOSED, CANCELLED), a P&L, a creation time and an optional close time.

The model covers:

- one trade: the P&L of a price move, the confluence score, and the create, update and close transitions of each backend;
- the collection of stored trades: the account summary, the win/loss metrics, the daily P&L rows sorted by date, and the monthly report over a calendar-month window.

The modules follow the program's layout:

| module | file | models |
|---|---|---|
| `Wrappers` | wrappers.dfy | `Option` and `Result` |
| `Rounding` | rounding.dfy | Python's `round(x, n)`: half-to-even on the exact value |
| `Dates` | dates.dfy | calendar dates ordered like `YYYY-MM-DD` strings; the month window of the monthly report |
| `Text` | text.dfy | `split`, `join`, `replace`, `strip` and `startswith` on strings |
| `TradeRecord` | trade.dfy | the trade record, an update request, P&L, confluence, record creation, the field-copy loop |
| `Statistics` | statistics.dfy | the account-summary and metrics computations shared by all backends |
| `DailyLedger` | daily_ledger.dfy | the per-day dicts built in a loop (key order plus map), sorting of dates, first maximum and minimum |
| `SqlBackend` | sql_backend.dfy | `app.py`: update, close, account, metrics, daily and monthly views |
| `FlatFileBackend` | flat_file_backend.dfy | `app_simple.py`: the in-memory list store as a class with `Get`, `Create`, `Update`, `Delete` |
| `DocumentBackend` | document_backend.dfy | `app_mongo.py`: building the `$set` document of an update |
| `DocumentStats` | document_stats.dfy | the dict-based account and metrics views of `app_simple.py`/`app_mongo.py`, where a missing key reads as 0 |
| `DatabaseUrl` | database_url.dfy | `DatabaseConfig._get_database_url` |
| `Manage` | manage.dfy | `manage.py`: import-line insertion and removal, endpoint splicing, model generation, `add-model` field parsing |
| `CsvExport` | csv_export.dfy | `convertToCSV` of the admin panel |
| `TradesTable` | trades_table.dfy | `getConfluenceClass` and the row rules of `renderTradesTable` |
| `Dashboard` | dashboard.dfy | `updateConfluence` and the bar colours of `updateChart` |

Three rules hold throughout:

- Prices and P&L are `real`.
- An exit price is *truthy* when it is present and non-zero. That is Python's `if trade.exit_price`.
- Clocks are caller-supplied `Timestamp` values.

Where a handler raises (`KeyError`, `ValueError`, a missing document), the model returns a `Result` error instead. A `TypeError` from a null request value is not modelled; see "## Left out".

### Behaviours worth knowing

The model follows the code in each case below:

- **CLOSED is decided by truthiness.** All three backends test the exit price with Python truthiness, not with `is not None`. An exit price of 0 therefore leaves the trade OPEN with P&L 0. See `TradeRecord.NewTrade` and `TradeRecord.CalculatePnl`.
- **The two update paths of `app.py` treat the close time differently.** `update_trade` keeps the close time of a trade that is already closed. `close_trade` always sets it to now. See `SqlBackend.UpdateKeepsCloseTime`.
- **`close_trade` breaks the invariant that `update_trade` keeps.** After `update_trade`, a trade is CLOSED exactly when its exit price is truthy. `close_trade` sets CLOSED even at a null or zero exit. See `SqlBackend.CloseKeepsConsistent` and `SqlBackend.CloseAtFalsyExit`.
- **Only `app.py` reopens.** In `app.py`, clearing the exit price reopens the trade with P&L 0 and no close time. `app_simple.py` and `app_mongo.py` never reopen: the trade stays CLOSED with its old P&L. See `SqlBackend.ClearingExitReopens`, `FlatFileBackend.ClearingExitKeepsClosed` and `DocumentBackend.FalsyExitStoredOnly`.
- **Two backends overwrite the close time.** `app_simple.py` and `app_mongo.py` overwrite the close time on every closing update. See `FlatFileBackend.FlatFileUpdated` and `DocumentBackend.DiffersFromFlatFileWithoutExit`.

## Model

| member | source | states |
|---|---|---|
| Rounding.RoundNear | backend/app.py:31 | rounding to n places moves a value by at most half a unit of the last place |
| Rounding.RoundMonotone | backend/app.py:31 | rounding preserves order |
| Rounding.RoundNeg | backend/app.py:31 | half-to-even rounding is symmetric about zero |
| TradeRecord.CalculatePnl | backend/app.py:21-31 | a missing or zero exit gives P&L 0; otherwise the result is within half a cent of the LONG or SHORT price move × lot × 100000 |
| TradeRecord.LongShortOpposite | backend/app.py:26-29 | a LONG and a non-LONG trade at the same prices have opposite P&L |
| TradeRecord.LongPnlSign | backend/app.py:26-27 | a LONG trade with a positive lot gains when the exit is at or above the entry, loses when it is at or below |
| TradeRecord.PnlExamples | backend/app.py:21-31 | 1.1000→1.1050 LONG at lot 1 gives 500; 1.2000→1.1950 SHORT at lot 2 gives 1000 |
| TradeRecord.ConfluenceBetween | backend/app.py:33-35 | the confluence of five scores lies between their bounds |
| TradeRecord.ConfluenceOfEqual | backend/app.py:33-35 | five equal scores have that score as confluence |
| TradeRecord.ConfluenceMonotone | backend/app.py:33-35 | raising one score never lowers the confluence |
| TradeRecord.NewTrade | backend/app.py:65-105 | creation succeeds iff symbol, direction, entry and lot are present; otherwise the error names the first missing one in that order. The record copies the fields, the five scores with default 0, and risk/reward and notes with default None. Confluence is the mean of the scores. It is CLOSED iff the exit is truthy, with P&L and close time = now only then. It is consistent |
| TradeRecord.CopyIfPresentFrame | backend/app.py:118-122 | copying one field changes that field only |
| TradeRecord.CopyAllField | backend/app.py:118-122 | after copying a list of fields, each listed field holds the merged value and every other field its old value |
| TradeRecord.CopyAllMerged | backend/app.py:118-122 | copying the twelve listed fields gives the merge of record and request |
| TradeRecord.CopyPresentFields | backend/app.py:118-122 | the `setattr` loop over the twelve fields yields exactly the merge of record and request |
| Statistics.SignPartition | backend/app.py:212-213 | every closed P&L is winning, losing or zero, and exactly one of these |
| Statistics.SumPositivesNonNeg | backend/app.py:215 | gross profit is not negative |
| Statistics.SumNegativesNonPos | backend/app.py:216 | the summed losses are not positive |
| Statistics.Mean | backend/app.py:227 | a mean lies between the smallest and largest value |
| Statistics.MeanWithin | backend/app.py:227 | a mean of values within bounds is within the bounds |
| Statistics.AccountStatsOver | backend/app.py:177-193 | the total is the sum of closed P&L and the balance is 100000 plus it. The starting balance is echoed. Counts are as filtered, winning is the positive count, and losing is total − winning ≥ 0. The percentage is 0 when the starting balance is not positive, else total × 100 / starting |
| Statistics.LosingIncludesBreakEven | backend/app.py:181-193 | `losing_trades` counts the negative and the break-even closed trades |
| Statistics.PercentBounds | backend/app.py:219 | a part of a positive whole, in percent to one decimal, is ≥ 0, and ≤ 100 when the part is at most the whole |
| Statistics.WinRate | backend/app.py:219 | the win rate lies in [0, 100] |
| Statistics.ProfitFactor | backend/app.py:218 | the profit factor is 0 without losses and non-negative for a non-negative gross profit |
| Statistics.AverageOrZero | backend/app.py:221-222 | an average over an empty side is 0 and is non-negative for a non-negative total |
| Statistics.SumNegativesNeg | backend/app.py:216 | with at least one loss the summed losses are negative, so the profit factor's divisor is non-zero |
| Statistics.MetricsOverValues | backend/app.py:212-236 | over closed trades: win rate = winners/closed × 100 to 0.1; average win = gross profit / wins and average loss = gross loss / losses to 0.01 when there are any; largest win = max win or 0, largest loss = min loss or 0; profit factor = gross profit / gross loss when there is a loss; average confluence = mean score to 0.1 |
| Statistics.MetricsOver | backend/app.py:201-236 | no closed trades give seven zeros. The win rate is in [0, 100] and the profit factor ≥ 0. No losses give zero loss fields; no wins give zero win fields. The average win is at most the largest win, and the average loss at most the largest loss's size |
| Statistics.AverageAtMostMax | backend/app.py:221-224 | the rounded average win never exceeds the rounded largest win |
| Statistics.AverageLossAtMostMin | backend/app.py:222-225 | the rounded average loss never exceeds the rounded size of the largest loss |
| Statistics.AverageConfluenceBetween | backend/app.py:227 | the average confluence lies within the bounds of the closed trades' scores |
| Dates.BeforeIsStrictTotalOrder | backend/app.py:252 | the date order is a strict total order, as `YYYY-MM-DD` strings sort |
| Dates.MonthWindow | backend/app.py:263-267 | the window exists iff the month is 1..12 and both ends are valid dates (year 1..9999, no December of 9999). It runs from the 1st of the month to the 1st of the next month |
| Dates.WindowIsCalendarMonth | backend/app.py:263-272 | a valid date is in the window iff it has the window's year and month |
| Dates.DecemberRollover | backend/app.py:264-265 | December 2024 ends at 2025-01-01: 2024-12-31 is inside, 2025-01-01 is not |
| DailyLedger.DayKeys | backend/app.py:244-248 | the dict's keys: the distinct dates, each once, in first-occurrence order |
| DailyLedger.TallyByDay | backend/app.py:276-282 | the grouping loop yields the keys in insertion order, each day's P&L sum and each day's trade count |
| DailyLedger.TallyStep | backend/app.py:278-282 | one more iteration keeps the key order, each day's total and each day's count in step with the entries seen |
| DailyLedger.AbsentDay | backend/app.py:309 | a day with no entry has sum 0 and count 0 |
| DailyLedger.DaysPartitionEntries | backend/app.py:285 | the day sums add up to the total P&L and the day counts to the number of entries |
| DailyLedger.SortDates | backend/app.py:252 | `sorted` gives an ascending permutation of the keys |
| DailyLedger.FirstMax | backend/app.py:290 | `max` picks the first position of the largest value |
| DailyLedger.FirstMin | backend/app.py:291 | `min` picks the first position of the smallest value |
| SqlBackend.SqlUpdated | backend/app.py:107-141 | the fields are merged and the trade is consistent. A truthy exit closes it and keeps an earlier close time, else now. Any other exit reopens it with P&L 0 and no close time |
| SqlBackend.UpdateTrade | backend/app.py:117-138 | the handler's loop and assignments compute exactly `SqlUpdated` |
| SqlBackend.UpdateIdempotent | backend/app.py:117-138 | sending the same update twice gives the result of sending it once |
| SqlBackend.EmptyUpdateKeepsConsistent | backend/app.py:117-138 | an empty request leaves a consistent trade unchanged |
| SqlBackend.ClearingExitReopens | backend/app.py:135-138 | clearing or zeroing the exit reopens the trade with P&L 0 and no close time |
| SqlBackend.SqlClosed | backend/app.py:143-158 | closing needs the `exit_price` key. It sets the exit, CLOSED, the recomputed P&L and close time = now, and nothing else |
| SqlBackend.CloseKeepsConsistent | backend/app.py:152-155 | closing a consistent trade at a non-zero exit keeps it consistent |
| SqlBackend.CloseAtFalsyExit | backend/app.py:152-155 | closing at a null or zero exit gives a CLOSED trade with P&L 0 that breaks the status invariant |
| SqlBackend.UpdateKeepsCloseTime | backend/app.py:133-134 | a later closing update keeps the close time `close_trade` set, while a second `close_trade` moves it |
| SqlBackend.AccountStatsOf | backend/app.py:172-194 | the total is the sum of the CLOSED trades' P&L and the balance is 100000 plus it; the percentage is total/1000. The counts are the CLOSED and OPEN trades, winning is the positive count and losing = total − winning |
| SqlBackend.CountsFit | backend/app.py:181-182 | closed and open counts together never exceed the number of trades |
| SqlBackend.MetricsOf | backend/app.py:196-237 | no closed trade gives the zero metrics; otherwise each metric has the value `MetricsValues` gives over the CLOSED trades' P&L and confluence. The win rate lies in [0, 100] and the profit factor is ≥ 0 |
| SqlBackend.NotClosedTradeIgnored | backend/app.py:178-199 | storing one more non-CLOSED trade changes neither the metrics nor the closed totals |
| SqlBackend.ClosedTradeCounted | backend/app.py:178-181 | storing one more CLOSED trade adds its P&L to the balance and one to the closed count |
| SqlBackend.ClosedEntries | backend/app.py:242-247 | a date is grouped iff some CLOSED trade has its close time on that date |
| SqlBackend.SortedKeys | backend/app.py:252 | the sorted keys are the same dates, as many |
| SqlBackend.DailyRows | backend/app.py:250-253 | one row per sorted date, holding that day's sum rounded to 2 places |
| SqlBackend.DailyStats | backend/app.py:239-253 | the rows ascend by date. A date appears iff some CLOSED trade closed on it. Each row's P&L is that day's sum rounded to 2 places |
| SqlBackend.MonthEntries | backend/app.py:269-282 | each grouped entry has a close date inside the window, and a date is grouped iff some CLOSED trade closed on it inside the window |
| SqlBackend.InWindowEntries | backend/app.py:269-273 | the kept entries all lie inside the window |
| SqlBackend.MonthEntriesOfClosed | backend/app.py:269-282 | the month's entries are exactly, in order, the entries of all CLOSED trades whose close date lies in the window |
| SqlBackend.FirstBestUnique | backend/app.py:290 | the first best day is unique |
| SqlBackend.DayValues | backend/app.py:285 | the dict's values, in key order, sum to the sum over the keys |
| SqlBackend.BestDay | backend/app.py:290-302 | no day gives (None, 0), otherwise the first day with the largest total and that total to the cent |
| SqlBackend.WorstDay | backend/app.py:291-303 | no day gives (None, 0), otherwise the first day with the smallest total and that total to the cent |
| SqlBackend.MonthRows | backend/app.py:305-312 | one row per sorted date with the day's rounded sum and trade count; the counts add up over the dates |
| SqlBackend.SortedMonthRows | backend/app.py:305-312 | `daily_data` ascends by date, one row per trading day, and its counts add up to all grouped trades |
| SqlBackend.DayRate | backend/app.py:301 | the rate is 0 without a day and lies in [0, 100] when the winning days are at most the days |
| SqlBackend.SignsOfDayValues | backend/app.py:286-287 | the positive and negative dict values number the days whose total is positive and negative |
| SqlBackend.MonthReportFigures | backend/app.py:284-313 | the winning and losing days are the days with a positive and a negative total, the win rate is their share of the trading days as a percentage in [0, 100], and the average daily P&L is the month's total over the trading days |
| SqlBackend.MonthReport | backend/app.py:284-313 | year and month are echoed. The total trades and rounded total P&L are over all entries. Winning plus losing days ≤ trading days. Best and worst day are (None, 0) and the rates 0 without days, otherwise the first extremal days |
| SqlBackend.MonthlyStats | backend/app.py:255-313 | an invalid month or year is an error; otherwise the month report over the trades CLOSED inside the window: totals, ascending daily rows, best and worst day, winning and losing day counts, win rate and average daily P&L |
| FlatFileBackend.NextId | backend/app_simple.py:60 | the new id exceeds every stored id: 1 for an empty list, else the maximum + 1 |
| FlatFileBackend.FirstIndex | backend/app_simple.py:49 | `next(...)` finds the first record with the id, or none iff no record has it |
| FlatFileBackend.WithoutId | backend/app_simple.py:144 | the filter keeps exactly the records with another id |
| FlatFileBackend.DeleteUnknownIsNoop | backend/app_simple.py:144 | deleting an unknown id leaves the list as it was |
| FlatFileBackend.DeleteDistributes | backend/app_simple.py:144 | the filter keeps the original order: it distributes over concatenation |
| FlatFileBackend.FlatFileUpdated | backend/app_simple.py:117-136 | the fields are merged and the confluence is recomputed. A truthy exit closes the record with recomputed P&L and close time = now. Any other exit leaves status, P&L and close time as they were |
| FlatFileBackend.NeverReopens | backend/app_simple.py:129-136 | a CLOSED record stays CLOSED after any update |
| FlatFileBackend.ClearingExitKeepsClosed | backend/app_simple.py:129-136 | clearing the exit of a closed record leaves it CLOSED, with its old P&L and no exit |
| FlatFileBackend.UpdateKeepsConsistent | backend/app_simple.py:117-136 | updating an open record, or updating with a truthy exit, keeps a consistent record consistent |
| FlatFileBackend.TradeStore.constructor | backend/app_simple.py:19-23 | the store starts empty |
| FlatFileBackend.TradeStore.Get | backend/app_simple.py:46-52 | not-found iff no record has the id, else the first stored record with that id |
| FlatFileBackend.TradeStore.Create | backend/app_simple.py:54-104 | the new record is `NewTrade` with the next id and is appended after the unchanged records. A missing required key stores nothing |
| FlatFileBackend.TradeStore.Update | backend/app_simple.py:106-139 | an unknown id changes nothing. Otherwise the first matching record is replaced in place by `FlatFileUpdated` and all others are unchanged |
| FlatFileBackend.TradeStore.Delete | backend/app_simple.py:141-146 | the store becomes the records with another id, in order; ids stay unique |
| FlatFileBackend.KeepsUnique | backend/app_simple.py:144 | filtering keeps ids unique |
| DocumentBackend.MongoUpdateData | backend/app_mongo.py:101-138 | `update_data` holds exactly the sent listed fields. Confluence is present iff a score is sent, and is then the score of the stored document merged with the request. P&L, CLOSED and close time = now are present iff a truthy exit is sent; the P&L is then computed from the merged entry, lot and direction. It is an error iff the stored document is needed and missing |
| DocumentBackend.CopyPresentKeys | backend/app_mongo.py:105-110 | the copy loop yields exactly the sent listed fields |
| DocumentBackend.BuildUpdateData | backend/app_mongo.py:101-138 | the handler's steps compute exactly `MongoUpdateData` |
| DocumentBackend.ApplySet | backend/app_mongo.py:140 | `$set` overwrites exactly the keys of the update document |
| DocumentBackend.MongoNewTrade | backend/app_mongo.py:54-99 | the document backend's creation, with its inline P&L formula, builds exactly the record of `NewTrade` |
| DocumentBackend.MongoUpdated | backend/app_mongo.py:101-143 | a missing document is an error iff a score or a truthy exit is sent; otherwise a missing document gives a null body. An existing document is returned as the stored one with the update document applied by `$set`, with its id and creation time kept |
| DocumentBackend.FalsyExitStoredOnly | backend/app_mongo.py:109-124 | a sent falsy exit is stored, while status, P&L and close time keep their values |
| DocumentBackend.ConfluenceKeptUnlessSent | backend/app_mongo.py:113-121 | without a sent score the stored confluence is kept |
| DocumentBackend.AgreesWithFlatFile | backend/app_mongo.py:101-140 | with a current stored confluence, and a sent exit or a falsy stored one, the result equals the file store's in-place update |
| DocumentBackend.DiffersFromFlatFileWithoutExit | backend/app_mongo.py:124 | without a sent exit, a closed document keeps its close time where the file store would move it |
| DocumentStats.AccountStatsOfDocs | backend/app_mongo.py:150-171 | the total is the sum of the CLOSED documents' P&L and the balance is 100000 plus it; the percentage is total/1000. The counts are the CLOSED and OPEN documents, winning is the positive count and losing = total − winning |
| DocumentStats.MetricsOfDocs | backend/app_mongo.py:173-202 | no closed document gives the zero metrics; otherwise each metric has the value `MetricsValues` gives over the CLOSED documents' P&L and confluence. The win rate is in [0, 100] and the profit factor is ≥ 0 |
| DocumentStats.DocCountsFit | backend/app_simple.py:156-157 | closed and open counts together never exceed the number of records |
| DocumentStats.MissingPnlCountsAsZero | backend/app_simple.py:153-158 | a CLOSED record without `pnl` adds nothing to the total and counts as a losing trade |
| DocumentStats.MissingStatusIgnored | backend/app_mongo.py:155-160 | a record without `status` changes neither view |
| DocumentStats.DocProjections | backend/app_simple.py:153-158 | over complete records, the dict lookups select the same P&L, confluences and open count as the attribute reads |
| DocumentStats.DocumentViewsAgree | backend/app_simple.py:148-200 | over complete records, the dict-based account and metrics views equal the relational ones |
| DatabaseUrl.SelectUrl | backend/database.py:27-62 | a non-empty `DATABASE_URL` wins, then `POSTGRES_URL`, then `MYSQL_URL`; the result is never empty |
| DatabaseUrl.ExplicitUrlWins | backend/database.py:30-31 | with `DATABASE_URL` set, nothing else in the environment matters |
| DatabaseUrl.EmptyUrlFallsThrough | backend/database.py:30-31 | an empty `DATABASE_URL` counts as unset |
| DatabaseUrl.PostgresFromComponents | backend/database.py:44-50 | `DB_TYPE=postgresql` builds a `postgresql://` URL from the components |
| DatabaseUrl.MysqlFromComponents | backend/database.py:52-58 | `DB_TYPE=mysql` builds a `mysql+pymysql://` URL from the components |
| DatabaseUrl.SqliteFromComponents | backend/database.py:60-62 | any other `DB_TYPE` builds a `sqlite:///` URL from `DB_PATH` |
| DatabaseUrl.DefaultIsSqlite | backend/database.py:42-62 | an empty environment, or an unknown type, gives `sqlite:///database.db` |
| DatabaseUrl.DefaultPostgres | backend/database.py:44-50 | defaults postgres, '', localhost, 5432, trading_dashboard |
| DatabaseUrl.DefaultMysql | backend/database.py:52-58 | defaults root, '', localhost, 3306, trading_dashboard |
| DatabaseUrl.EmptyComponentKept | backend/database.py:47-61 | a component set to the empty string is used as is, not replaced by its default |
| Manage.ImportIndex | manage.py:205-208 | the insertion index is just after the last line starting with `import`, or 0 if there is none |
| Manage.AddImport | manage.py:200-211 | content already containing the line is unchanged; otherwise the line is inserted at the import index |
| Manage.InsertedAfterLastImport | manage.py:204-211 | the lines before and after the index keep their order, the new line sits at the index, and the line count grows by 1 |
| Manage.RemoveAbsent | manage.py:218-220 | removing a line that does not occur changes nothing |
| Manage.RemoveUndoesAdd | manage.py:200-220 | removing the import line after adding it restores the content, when some line follows the insertion point |
| Manage.HandlerName | manage.py:238 | the handler name has no `-` |
| Manage.HandlerNameOfPlainName | manage.py:238 | a name without `-` is its own handler name |
| Manage.EndpointAppended | manage.py:255-258 | without `return app`, the endpoint code is appended |
| Manage.EndpointBeforeReturn | manage.py:255-256 | a single `return app` gets the endpoint code inserted before it |
| Manage.AppendColumns | manage.py:286-296 | the field loop appends exactly the column lines |
| Manage.AppendDictEntries | manage.py:306-307 | the key loop appends exactly the `to_dict` entries |
| Manage.ModelCode | manage.py:277-311 | the model text is header, column lines, `to_dict` head, entries and footer |
| Manage.ColumnFields | manage.py:286-296 | exactly the fields of a known type get a column |
| Manage.UnknownTypesSkipped | manage.py:286-296 | fields of unknown type emit no column line |
| Manage.ColumnTextDeclares | manage.py:287-296 | a known-type column line declares `name = Column(` |
| Manage.KnownFieldHasColumn | manage.py:286-296 | every field of a known type has a column declaration in the model |
| Manage.EveryFieldInToDict | manage.py:306-307 | every field, whatever its type, appears in `to_dict` |
| Manage.DictLineNames | manage.py:307 | each entry maps the key to `self.` of the same name |
| Manage.PutField | manage.py:418 | a new key is appended in order; an existing key keeps its place |
| Manage.PutFieldKeepsUnique | manage.py:418 | keys stay unique |
| Manage.PutFieldLookup | manage.py:418 | the assigned key reads back the new value; other keys are unaffected |
| Manage.ParseParts | manage.py:416-418 | a parse yields a dict with unique keys |
| Manage.ParseOkIffWellFormed | manage.py:416-453 | parsing succeeds iff every part has exactly one `:` |
| Manage.ParseReportsFirstMalformed | manage.py:417-453 | a failure reports the first malformed part, with all parts before it well-formed |
| Manage.FailureSticks | manage.py:416-418 | once a prefix fails, the whole spec fails with the same error |
| Manage.ParseFieldSpec | manage.py:416-418 | the parse loop computes the pure parse of the comma-split spec |
| Manage.SpecPartSplits | manage.py:417 | a written `name:type` part splits back into its name and type |
| Manage.SpecPartParses | manage.py:417-418 | a clean written part parses back to its field |
| Manage.SpecRoundTrip | manage.py:416-418 | writing clean fields as a spec and parsing it gives the fields back |
| Manage.PartsRoundTrip | manage.py:416-418 | parsing the written parts of clean, uniquely named fields gives the fields back |
| Manage.SingleFieldParses | manage.py:416-418 | a one-field spec parses to that field |
| Manage.DefaultSpecParses | manage.py:414-418 | the default spec `name:string` parses to the one field (name, string) |
| Text.Keys | frontend/js/admin.js:312 | the header holds the first record's keys in order |
| CsvExport.Get | frontend/js/admin.js:316 | a lookup yields the first entry with the key, or `undefined` |
| CsvExport.Cells | frontend/js/admin.js:315-318 | one cell per header key, in header order |
| CsvExport.Rows | frontend/js/admin.js:315-318 | one line per record |
| CsvExport.ConvertToCsv | frontend/js/admin.js:309-322 | an empty list gives the empty string |
| CsvExport.CsvLines | frontend/js/admin.js:313-319 | with no newline in keys or cells, n records give the header line plus n lines |
| CsvExport.RowColumns | frontend/js/admin.js:315-318 | with no comma in keys or cells, each line splits into exactly its header-ordered cells |
| CsvExport.FirstRowInOrder | frontend/js/admin.js:312-316 | the first record's line lists its own values in its own key order |
| CsvExport.StringCellQuotes | frontend/js/admin.js:317 | a string cell gains exactly two quotes; inner quotes are not escaped |
| TradesTable.ConfluenceClass | frontend/js/components/tradesTable.js:84-87 | high iff ≥ 70, medium iff in [40, 70), low iff < 40 |
| TradesTable.ConfluenceClassMonotone | frontend/js/components/tradesTable.js:84-87 | a higher score never gets a lower band |
| TradesTable.ClassNamesDistinct | frontend/js/components/tradesTable.js:85-87 | the three bands have distinct class names |
| TradesTable.RowOf | frontend/js/components/tradesTable.js:32-68 | the row offers Close iff the trade is OPEN, and ends with Edit then Delete, all for the trade's id. The exit is shown iff truthy, profit styling iff P&L ≥ 0, and the band is the score's class |
| TradesTable.RenderTradesTable | frontend/js/components/tradesTable.js:6-70 | a missing or empty list gives the empty state; otherwise one row per trade, in order |
| TradesTable.ClosableRowOf | frontend/js/components/tradesTable.js:57-61 | a row is closable iff its trade is OPEN |
| TradesTable.RowsOfCount | frontend/js/components/tradesTable.js:32-61 | over one row per trade, the rows offering Close are exactly as many as the OPEN trades |
| TradesTable.CloseButtonsMatchOpenCount | frontend/js/components/tradesTable.js:57-61 | the table has as many Close buttons as the account summary has open trades |
| Dashboard.OpenTrades | docs/js/components/dashboard.js:62 | the filter keeps exactly the OPEN trades |
| Dashboard.OpenTradesCount | docs/js/components/dashboard.js:62 | the filter keeps as many trades as the open count of the account summary |
| Dashboard.DashboardLevelIsTableClass | docs/js/components/dashboard.js:76-86 | the dashboard's level chain agrees with the table's class for every score |
| Dashboard.UpdateConfluence | docs/js/components/dashboard.js:61-90 | nothing open iff no trade is OPEN. Otherwise the average lies between the smallest and largest open score, and its level is the score class |
| Dashboard.AverageIsSumOverCount | docs/js/components/dashboard.js:73 | the average is the sum of open scores divided by their number |
| Dashboard.NotOpenIgnored | docs/js/components/dashboard.js:62 | a non-OPEN trade does not change the summary |
| Dashboard.AverageWithin | docs/js/components/dashboard.js:73 | open scores within bounds give an average within them |
| Dashboard.OverallText | docs/js/components/dashboard.js:67-74 | the text is "0%" exactly when nothing is open |
| Dashboard.NothingOpenTexts | docs/js/components/dashboard.js:66-71 | nothing open shows "0%", "No Open Trades" and the bare level class |
| Dashboard.LevelClassUsesTableName | docs/js/components/dashboard.js:76-86 | with a band, the level class is the base class plus the table's class name |
| Dashboard.ChartBars | docs/js/components/dashboard.js:99-106 | one bar per daily row, in order, with its date and P&L. The fill is green iff P&L ≥ 0 and red iff < 0, and the border is the fill fully opaque |
| Dashboard.BarsInDateOrder | docs/js/components/dashboard.js:99-104 | over the ascending daily rows the bars are in date order |

## Left out

- The video routes of `backend/app.py` (lines 317-414) are not modelled. They are plain field copies plus a view counter.
- The web framework: routing, JSON encoding, CORS, static files and HTTP status codes. A handler's result is a value or a `Result` error.
- Persistence is not modelled. This covers the ORM session and engine, the document driver and `ObjectId` with `serialize_trade`, and the JSON file load and save. The store is a `seq` of records.
- Floating point is not modelled. Prices are `real`, and `round` is half-to-even on the exact real, not on a binary double.
- The clock: `datetime.utcnow`, `strftime` and `isoformat`. Timestamps are parameters. The monthly report's year/month defaults from the clock are parameters too.
- TradeRecord.NewTrade: one `now` is used for both the creation and the close time. In `backend/app.py` the creation time is the column default and the close time a separate `utcnow()` call, so the two can differ slightly.
- `str.title()` and `str.lower()` in `manage.py` are not computed. The capitalised and lower-cased names are parameters.
- `manage.py` file reads, writes, printing and the other commands (components, migrations, backups, deployment) are not modelled.
- Manage.ParseFieldSpec: `strip` removes ASCII whitespace only, not all of Python's Unicode whitespace.
- Manage.ParseFieldSpec: it starts from the spec text after the `'name:string'` default has been applied.
- Manage.EndpointBeforeReturn: only a single `return app` is stated. Several occurrences are covered by the general `replace` model, not by a lemma.
- Manage.RemoveUndoesAdd: only the case where some line follows the insertion point is stated. If the import goes at the very end, removing `line` + newline can leave the preceding newline behind.
- CsvExport.ConvertToCsv: `Object.keys` on integer-like keys puts them first in numeric order; a record here is its keys in the order given. Number-to-text conversion is carried in the value (`JsScalar`).
- The trades table's HTML text is not modelled. This covers `toFixed`, badges and the label strings. A row is the information the template writes.
- Dashboard.OverallText: the average is written by `toFixed(1)`, which is not modelled; with open trades the text is left unspecified.
- Dashboard.ChartBars: colours are `rgba` components, not the CSS text. The date labels from `toLocaleDateString` and the chart library are not modelled.
- The DOM writes of `updateConfluence`, `updateChart` and the admin panel are not modelled.
- Raised exceptions are modelled as `Result` errors. This covers a missing required key at creation, a missing `exit_price` at close, an invalid month and a missing document that the update has to read. The resulting 500 responses are not modelled.
- Request values are typed: a score is an `int`, and a price or lot is a `real`. A score, price or lot sent as JSON null or as a non-number cannot be represented. The handlers then raise `TypeError`: in `calculate_confluence`, in the P&L arithmetic, and in the inline sums of `app_simple.py` and `app_mongo.py`. That path is not modelled. The path can occur: a trade form field left empty and read with `parseInt` gives NaN, and JSON encodes NaN as null.
- The status CANCELLED is carried by the data model. No handler of the core sets it.
