# Mahjong Soul game-list crawler: a verified model of its windowing and saving logic

`get_id.py` downloads, for one configured month, the list of four-player games
played in each quarter of each day. It then stores every non-empty list as a
JSON file named after the window, the game mode and the number of games. This
project models the parts of that script that are logic rather than I/O. It
proves what the script promises about them.

- `get_month_range` computes the first instant and the last second of a month.
  December wraps into January of the next year. Out-of-range values raise
  `ValueError`.
- The loop in `main` walks the month day by day from its midnight. It cuts each
  day into four 6-hour windows `[current + q/4 day, current + (q+1)/4 day)`.
- The file name `{start}-{end}-mode{mode}-{matches}.json` is built from
  `timestamp_to_readable` (`%Y-%m-%d_%H-%M-%S`) and `calculate_matches`. The
  per-day folder is `./sapk_data/{year}/{MM}/{DD}`.
- The save decision works like this:
  - a falsy fetch result (`None` or an empty list) is reported as a failure;
  - a path that already exists is skipped;
  - any other result is written under its path.
- The status rule of `get_game_data`: 200 returns the body, 429 asks again, and
  any other status returns `None`.

The Dafny modules follow that structure:

- `Calendar` is Python's naive `datetime`. A datetime is its calendar fields.
  `Seconds` counts seconds since 0001-01-01 in the proleptic Gregorian calendar,
  and `FromSeconds` is its proved inverse. `AddSeconds` is `dt + timedelta`,
  which raises `OverflowError` outside years 1..9999. `Before` is Python's
  field-by-field comparison.
- `Text` renders `str(n)` and `{n:0wd}` and parses digits back.
- `Naming` holds the readable timestamp, the file name, the folder and the
  path join. Each one has a parser that reads it back.
- `GameData` holds the status rule over the server's successive replies.
- `Crawler` holds `get_month_range` and the specification of a month's
  windows. It specifies the save decision as the function `Step` and its fold
  `Run`. `main`'s two loops are the methods `Crawl` and `CrawlDay`. They are
  proved to leave exactly the archive that `Run` describes. The archive holds
  the files (a map from path to contents) and the log of decisions.
- `CrawlerProperties` holds the properties of the windows and of `Run`.

## Model

| member | source | states |
|---|---|---|
| Calendar.MakeDateTime | get_id.py:9-13 | `datetime(y, m, d, h, mi, s)` succeeds exactly when the fields name a valid date and time; otherwise it raises `ValueError` |
| Calendar.AddSeconds | get_id.py:11-13 | `dt + timedelta(seconds=k)` is the datetime `k` seconds later, valid; it raises `OverflowError` exactly when that would leave years 1..9999 |
| Calendar.FromSeconds | get_id.py:59-60 | every count of seconds in range denotes exactly one valid datetime, which has that count |
| Calendar.FromSecondsOfSeconds | get_id.py:59-60 | a valid datetime is recovered from its count of seconds |
| Calendar.BeforeIsSecondsOrder | get_id.py:55 | Python's field-by-field datetime comparison is the order of the seconds counts, and equal fields are equal counts |
| Calendar.Before | get_id.py:55 | the `<=` of `current_date <= end_date`; `BeforeIsSecondsOrder` proves it is the order of the seconds counts |
| Calendar.NextMonthSeconds | get_id.py:10-13 | the first instant of the next month (January of the next year after December) is valid and lies exactly days-in-month days after the month's first instant |
| Calendar.DaySeconds | get_id.py:59-60 | hour `h` of day `d` lies `d - 1` days and `h` hours after the month's first instant |
| Crawler.GetMonthRange | get_id.py:7-15 | returns a range exactly for years 1..9999 and months 1..12, except 9999-12 (whose next month cannot be built); otherwise `ValueError`; the start is day 1 at 00:00:00 and the end is the month's last day at 23:59:59, both in the requested year and month |
| Crawler.MonthRangeSpan | get_id.py:9-13 | the start is before the end; the end is one second before the next month's first instant (January 1 of the next year for December); the range spans exactly days-in-month days |
| Crawler.WindowAt | get_id.py:57-60 | every window of an accepted month has valid bounds |
| Crawler.MonthWindows | get_id.py:54-60 | a month has 4 times days-in-month windows, window `i` being quarter `i % 4` of day `i / 4 + 1` |
| Crawler.WindowSeconds | get_id.py:57-60 | window `i` starts `i` quarter-days after the month's first instant and lasts exactly 21600 seconds |
| Crawler.QuarterBounds | get_id.py:59-60 | adding `q/4` of a day to the loop's current midnight gives quarter `q`'s bound; `q = 4` gives the next day's midnight (the next month's first instant after the last day) |
| Crawler.QuarterStartSeconds | get_id.py:59-60 | quarter `q` of day `d + 1` lies `d` days and `q` quarter-days after the month's first instant |
| Crawler.StepDecides | get_id.py:65-90 | one save decision appends one report, which is a failure exactly for a falsy result and a save exactly for a truthy result whose path is absent; old files are kept unchanged; the new paths are exactly that one path in that case and none otherwise; a new file holds the fetched list |
| Crawler.SaveWindow | get_id.py:65-90 | the body of the quarter loop after the fetch leaves exactly the archive of the save decision |
| Crawler.CrawlDay | get_id.py:57-92 | the quarter loop over one day applies the save decisions of that day's four windows in order |
| Crawler.Crawl | get_id.py:45-95 | `main` fails with `ValueError` exactly for a month `get_month_range` rejects; otherwise it leaves the archive of the save decisions over all the month's windows in order |
| Crawler.QuarterStep | get_id.py:57-63 | the window built by the loop from `current` and `quarter` is the next window of the month, and handling it extends the crawl by one decision |
| Crawler.CrawledMonth | get_id.py:54-95 | when the day loop stops after the last day, every window of the month has been handled |
| Crawler.MonthNameable | get_id.py:74-77 | every window of an accepted month has a file name and a folder |
| Crawler.Step | get_id.py:65-90 | the save decision for one window; `StepDecides` proves its report, that old files are kept and which one path it adds |
| Crawler.Run | get_id.py:54-95 | the save decisions over a sequence of windows in order; `Crawl` is proved equal to it over the month, and `RunKeeps`, `RunNewFiles`, `RunSavesFresh` and `RunStable` prove what it writes |
| CrawlerProperties.WindowsContiguous | get_id.py:57-60 | each window ends exactly where the next one starts, across midnights too |
| CrawlerProperties.DayQuarters | get_id.py:57-60 | quarter `q` of a day starts at hour `6q`; window 0 starts at the day's midnight; window 3 ends at the next midnight, or at the next month's first instant on the last day |
| CrawlerProperties.DaysInOrder | get_id.py:54-95 | the windows visit the days in increasing order, four windows per day |
| CrawlerProperties.MonthWindowsSpan | get_id.py:51-60 | the first window starts at the month's start and the last ends one second after the month's end |
| CrawlerProperties.InWindowSeconds | get_id.py:57-60 | an instant is in window `i` exactly when it lies between `i` and `i + 1` quarter-days after the month's start |
| CrawlerProperties.WindowsCoverMonth | get_id.py:54-60 | an instant lies between the month's start and end, both included, exactly when some window holds it |
| CrawlerProperties.WindowsDisjoint | get_id.py:57-60 | no instant lies in two different windows |
| CrawlerProperties.RunAppend | get_id.py:55-57 | handling two sequences of windows one after the other is handling their concatenation |
| CrawlerProperties.RunKeeps | get_id.py:80-85 | a run never changes or removes an existing file, and it adds exactly one report per window after the old ones |
| CrawlerProperties.RunSplit | get_id.py:55-57 | a run is the run before window `k`, the decision for `k`, and the run after `k` |
| CrawlerProperties.RunEntry | get_id.py:65-90 | the report and the files that window `k`'s decision leaves survive to the end of the run |
| CrawlerProperties.RunLog | get_id.py:65-90 | report `k` is about window `k`: a failure carrying its start and quarter for a falsy result; otherwise a save or a skip naming the window's folder and the file name with its number of games |
| CrawlerProperties.RunCoversTruthy | get_id.py:65-85 | after a run, every window with a truthy result has its file, whether it existed or was saved |
| CrawlerProperties.RunNewFiles | get_id.py:65-90 | every file a run adds was saved for a window with a truthy result, under that window's path, holding exactly the fetched list; nothing is written for `None` or an empty list |
| CrawlerProperties.RunStable | get_id.py:80-82 | when every truthy window's file already exists, a run leaves the files unchanged |
| CrawlerProperties.RerunWritesNothing | get_id.py:80-82 | crawling again with the same results over the files of a first crawl writes nothing |
| CrawlerProperties.WindowPathInjective | get_id.py:74-77 | within a month, a path determines its window and its number of games |
| CrawlerProperties.MonthPathsDistinct | get_id.py:74-77 | the windows of a month are saved under pairwise distinct paths |
| CrawlerProperties.NotYetSaved | get_id.py:80 | when paths are distinct, a truthy window's absent path is not written by the windows before it |
| CrawlerProperties.RunSavesFresh | get_id.py:80-88 | when paths are distinct, a truthy window whose path did not exist is saved with exactly the fetched list and reported as saved with its folder, name and number of games |
| CrawlerProperties.DecisionNames | get_id.py:74-77 | the report for a truthy window names a folder that reads back as the configured year and month and the window's day, and a file name that reads back as the window's bounds, the mode and the list's length |
| GameData.GetGameData | get_id.py:17-29 | the call is still waiting exactly when every reply so far was 429; a returned list is the body of a reply with status 200 |
| GameData.FirstDecisiveReply | get_id.py:21-29 | the first reply whose status is not 429 decides: its body for 200, `None` otherwise |
| GameData.LaterRepliesIgnored | get_id.py:23-26 | once the call has returned, replies after the decisive one do not change the outcome |
| GameData.Truthy | get_id.py:65 | `if game_data:` is false for `None` and for an empty list; `StepDecides` proves a failure report exactly when it is false |
| GameData.CalculateMatches | get_id.py:39-40 | the number of games in the list; `DecisionNames` proves a saved file's name reads back with exactly that number |
| Naming.ReadableRoundTrip | get_id.py:42-43 | the readable timestamp has 19 characters and reads back as the datetime it was made from |
| Naming.ReadableInjective | get_id.py:42-43 | distinct datetimes have distinct readable timestamps |
| Naming.FieldsRoundTrip | get_id.py:43 | each `A-BB-CC` half of a timestamp reads back as its three zero-padded fields |
| Naming.HeadRoundTrip | get_id.py:74 | the `{start}-{end}-mode{mode}` part of a file name reads back as both bounds and the mode |
| Naming.LastDashBeforeDigits | get_id.py:74 | the dash before the number of games is the name's last dash, whatever the mode contains |
| Naming.FileNameRoundTrip | get_id.py:74 | a file name reads back as its window bounds, its mode and its number of games |
| Naming.FolderRoundTrip | get_id.py:77 | a folder reads back as its year, its two-digit month and its two-digit day |
| Naming.PathInjective | get_id.py:77-80 | within one year and month, a joined path determines its day and its file name |
| Naming.Readable | get_id.py:42-43 | `strftime('%Y-%m-%d_%H-%M-%S')` of the fields; `ReadableRoundTrip` proves it has 19 characters and reads back as the datetime |
| Naming.FileName | get_id.py:74 | `{start}-{end}-mode{mode}-{matches}.json`; `FileNameRoundTrip` proves it reads back as both bounds, the mode and the number of games |
| Naming.Folder | get_id.py:77 | `./sapk_data/{year}/{MM}/{DD}`; `FolderRoundTrip` proves it reads back as year, month and day |
| Naming.Join | get_id.py:80 | `os.path.join` of the folder and a relative name; `PathInjective` proves the joined path determines day and name |
| Text.ParseDecimal | get_id.py:74-77 | `str(n)` reads back as `n` |
| Text.DecimalLength | get_id.py:77 | `str(n)` of a number below `10^k` has at most `k` digits |
| Text.ParseLeadingZeros | get_id.py:77 | zero padding does not change a numeral's value |
| Text.PaddedRoundTrip | get_id.py:77 | `{n:0wd}` of a number below `10^w` has exactly `w` digits and reads back as `n` |
| Text.Decimal | get_id.py:74-77 | `str(n)` is a non-empty string of digits; `ParseDecimal` proves it reads back as `n` |
| Text.Padded | get_id.py:77 | `{n:02d}` is a string of digits; `PaddedRoundTrip` proves it has exactly the width for a small enough `n` and reads back as `n` |

## Left out

- The HTTP request, URL construction and JSON decoding of `get_game_data` (lines 18-22) are network I/O. `Crawl` takes the fetch as a function from window bounds to its result, and `GetGameData` takes the server's replies as a sequence.
- GetGameData: `Waiting` stands for the state in which the call is still retrying after 429 replies (line 26); the model does not capture the `RecursionError` that CPython raises after about 1000 nested calls, which would end the crawl. `Crawl`'s fetch returns a value.
- `time.sleep` (lines 25, 92) and every `print` are left out because they have no effect on the files or the decisions. The log of `Decision`s stands in for the three kinds of message.
- Reading `config.json` and writing files (`os.makedirs`, `open`, `json.dump`; lines 31-37, 47-48) are filesystem I/O. The output directory is a map from path to the saved list, and a write is an update of that map.
- `Config.gameMode` is the text that `config['game_mode']` formats to. A year, month or game mode of another type (a `TypeError` or `KeyError` in Python) is not modelled.
- `.timestamp()` and `datetime.fromtimestamp` (lines 18, 43, 70-71) convert through the host's time zone. The model formats a naive datetime's own fields, which is what the round trip gives except for a time inside a daylight-saving gap.
- `timedelta(days=quarter_day / 4)` is a float division (lines 59-60). The model uses the exact step of 21600 seconds.
- `Naming.Readable` pads the year to four digits. Some C libraries print years below 1000 without padding under `%Y`.
- Microseconds are always zero on every datetime the script builds. The model has no microsecond field.
