/** The crawler's `main`: the month is cut into days and each day into four
    six-hour windows; each window's games are fetched and, when there are
    any, saved under a per-day folder unless a file of that name is there
    already.  The file system is a map from path to saved contents, and the
    fetch is an oracle from window bounds to what `get_game_data` returned. */
module Crawler {
  import opened Wrappers
  import opened Calendar
  import opened Naming
  import opened GameData

  /** The three settings `main` reads from `config.json`; the mode as it prints in an f-string. */
  datatype Config = Config(inputYear: int, inputMonth: int, gameMode: string)

  /** `timedelta(days=1/4)`, exactly. */
  const QuarterSeconds := 21600

  /** One quarter-day request: day of the month, quarter 0..3, and its bounds. */
  datatype Window = Window(day: int, quarter: int, from: DateTime, to: DateTime)

  /** What `main` reports for one window. */
  datatype Decision =
    | Saved(folder: string, name: string, matches: nat)
    | AlreadyExists(folder: string, name: string)
    | FetchFailed(from: DateTime, quarter: int)

  /** The files under the output tree, each with the games saved in it, and the reports so far. */
  datatype Archive<G> = Archive(files: map<string, seq<G>>, log: seq<Decision>)

  /** The months `get_month_range` accepts. */
  predicate MonthInRange(y: int, m: int) {
    MinYear <= y <= MaxYear && 1 <= m <= 12 && !(y == MaxYear && m == 12)
  }

  /** `get_month_range`: the first instant of the month and the last second of the month. */
  function GetMonthRange(year: int, month: int): (r: Result<(DateTime, DateTime), DateError>)
    ensures r.Ok? <==> MonthInRange(year, month)
    ensures r.Err? ==> r.error == ValueError
    ensures r.Ok? ==> r.value.0 == DateTime(year, month, 1, 0, 0, 0)
    ensures r.Ok? ==> r.value.1 == DateTime(year, month, DaysInMonth(year, month), 23, 59, 59)
  {
    var start := MakeDateTime(year, month, 1, 0, 0, 0);
    var next := if month == 12 then MakeDateTime(year + 1, 1, 1, 0, 0, 0)
                else MakeDateTime(year, month + 1, 1, 0, 0, 0);
    if start.Err? then Err(start.error)
    else if next.Err? then Err(next.error)
    else
      NextMonthSeconds(year, month);
      var end := AddSeconds(next.value, -1).value;
      var last := DateTime(year, month, DaysInMonth(year, month), 23, 59, 59);
      DaySeconds(year, month, DaysInMonth(year, month), 23);
      BeforeIsSecondsOrder(end, last);
      Ok((start.value, end))
  }

  /** The range of an accepted month: both ends are valid datetimes, the start comes first, the end is
      one second before the next month begins, and the range spans exactly the month's days. */
  lemma MonthRangeSpan(year: int, month: int)
    requires MonthInRange(year, month)
    ensures var (start, end) := GetMonthRange(year, month).value;
      && Valid(start) && Valid(end) && Before(start, end)
      && Seconds(end) + 1 == Seconds(NextMonthStart(year, month))
      && AddSeconds(end, 1) == Ok(NextMonthStart(year, month))
      && Seconds(end) + 1 - Seconds(start) == DaysInMonth(year, month) * SecondsPerDay
  {
    var (start, end) := GetMonthRange(year, month).value;
    NextMonthSeconds(year, month);
    DaySeconds(year, month, DaysInMonth(year, month), 23);
    BeforeIsSecondsOrder(start, end);
    BeforeIsSecondsOrder(AddSeconds(end, 1).value, NextMonthStart(year, month));
  }

  /** Midnight at the start of day `d + 1` of the month, or of the next month once `d` is the month's length. */
  function DayStart(y: int, m: int, d: int): DateTime
    requires 1 <= m <= 12
  {
    if d < DaysInMonth(y, m) then DateTime(y, m, d + 1, 0, 0, 0) else NextMonthStart(y, m)
  }

  /** The start of quarter `q` of day `d + 1`; quarter 4 is the next day's midnight. */
  function QuarterStart(y: int, m: int, d: int, q: int): DateTime
    requires 1 <= m <= 12
  {
    if q < 4 then DateTime(y, m, d + 1, 6 * q, 0, 0) else DayStart(y, m, d + 1)
  }

  /** Window `i` of the month: quarter `i % 4` of day `i / 4 + 1`, up to the start of the next quarter. */
  function WindowAt(y: int, m: int, i: int): (w: Window)
    requires MonthInRange(y, m) && 0 <= i < 4 * DaysInMonth(y, m)
    ensures Valid(w.from) && Valid(w.to)
  {
    var d, q := i / 4, i % 4;
    Window(d + 1, q, QuarterStart(y, m, d, q), QuarterStart(y, m, d, q + 1))
  }

  /** Every window `main` requests for the month, in the order it requests them. */
  function MonthWindows(y: int, m: int): (ws: seq<Window>)
    requires MonthInRange(y, m)
    ensures |ws| == 4 * DaysInMonth(y, m)
    ensures forall i :: 0 <= i < |ws| ==> ws[i] == WindowAt(y, m, i)
  {
    seq(4 * DaysInMonth(y, m), i requires 0 <= i < 4 * DaysInMonth(y, m) => WindowAt(y, m, i))
  }

  /** A window the crawler can name: inside a month `get_month_range` accepts. */
  predicate Nameable(cfg: Config, w: Window) {
    && MonthInRange(cfg.inputYear, cfg.inputMonth)
    && 1 <= w.day <= 31 && Valid(w.from) && Valid(w.to)
  }

  /** The path a window's games are saved under when there are `matches` of them. */
  function WindowPath(cfg: Config, w: Window, matches: nat): string
    requires Nameable(cfg, w)
  {
    Join(Folder(cfg.inputYear, cfg.inputMonth, w.day), FileName(w.from, w.to, cfg.gameMode, matches))
  }

  /** The save decision for one window, given what the fetch returned. */
  function Step<G>(a: Archive<G>, cfg: Config, w: Window, data: Option<seq<G>>): Archive<G>
    requires Nameable(cfg, w)
  {
    if Truthy(data) then
      var matches := CalculateMatches(data.value);
      var name := FileName(w.from, w.to, cfg.gameMode, matches);
      var folder := Folder(cfg.inputYear, cfg.inputMonth, w.day);
      var path := Join(folder, name);
      if path in a.files then Archive(a.files, a.log + [AlreadyExists(folder, name)])
      else Archive(a.files[path := data.value], a.log + [Saved(folder, name, matches)])
    else
      Archive(a.files, a.log + [FetchFailed(w.from, w.quarter)])
  }

  /** The archive after the save decision of every window in `ws`, in order. */
  function Run<G>(a: Archive<G>, cfg: Config, ws: seq<Window>, fetch: (DateTime, DateTime) -> Option<seq<G>>): Archive<G>
    requires forall i :: 0 <= i < |ws| ==> Nameable(cfg, ws[i])
  {
    if ws == [] then a
    else
      var w := ws[|ws| - 1];
      Step(Run(a, cfg, ws[..|ws| - 1], fetch), cfg, w, fetch(w.from, w.to))
  }

  /** The body of `main`'s quarter loop once the games are fetched: `get_id.py`, lines 65-90. */
  method SaveWindow<G>(files: map<string, seq<G>>, log: seq<Decision>, cfg: Config, w: Window, gameData: Option<seq<G>>)
    returns (files': map<string, seq<G>>, log': seq<Decision>)
    requires Nameable(cfg, w)
    ensures Archive(files', log') == Step(Archive(files, log), cfg, w, gameData)
  {
    files', log' := files, log;
    if gameData.Some? && |gameData.value| > 0 {
      var matches := CalculateMatches(gameData.value);
      var filename := FileName(w.from, w.to, cfg.gameMode, matches);
      var folder := Folder(cfg.inputYear, cfg.inputMonth, w.day);
      if Join(folder, filename) in files {
        log' := log + [AlreadyExists(folder, filename)];
        return;
      }
      files' := files[Join(folder, filename) := gameData.value];
      log' := log + [Saved(folder, filename, matches)];
    } else {
      log' := log + [FetchFailed(w.from, w.quarter)];
    }
  }

  /** `main` after `config.json` is read: the month's windows, fetched and saved in order.
      The result is the archive `Run` describes, or the error `get_month_range` raises. */
  method Crawl<G>(cfg: Config, existing: map<string, seq<G>>, fetch: (DateTime, DateTime) -> Option<seq<G>>)
    returns (r: Result<Archive<G>, DateError>)
    ensures r.Err? <==> !MonthInRange(cfg.inputYear, cfg.inputMonth)
    ensures r.Err? ==> r.error == ValueError
    ensures r.Ok? ==>
      && MonthInRange(cfg.inputYear, cfg.inputMonth)
      && r.value == Run(Archive(existing, []), cfg, MonthWindows(cfg.inputYear, cfg.inputMonth), fetch)
  {
    var range := GetMonthRange(cfg.inputYear, cfg.inputMonth);
    if range.Err? {
      return Err(range.error);
    }
    var (startDate, endDate) := range.value;
    ghost var y, m := cfg.inputYear, cfg.inputMonth;
    var files, log := existing, [];
    var current := startDate;
    ghost var days, done := 0, 0;
    while !Before(endDate, current)
      invariant 0 <= days <= DaysInMonth(y, m) && done == 4 * days
      invariant current == DayStart(y, m, days)
      invariant Archive(files, log) == Crawled(cfg, existing, fetch, done)
      decreases DaysInMonth(y, m) - days
    {
      files, log := CrawlDay(files, log, cfg, current, fetch, existing, days, done);
      QuarterBounds(y, m, days, 4);
      current := AddSeconds(current, SecondsPerDay).value;
      days, done := days + 1, done + 4;
    }
    CrawledMonth(cfg, existing, fetch, done);
    r := Ok(Archive(files, log));
  }

  /** One pass of `main`'s day loop: the four quarter-day windows from the midnight `current`
      that starts day `days + 1`, each fetched and saved in turn. */
  method CrawlDay<G>(files: map<string, seq<G>>, log: seq<Decision>, cfg: Config, current: DateTime,
                     fetch: (DateTime, DateTime) -> Option<seq<G>>,
                     ghost existing: map<string, seq<G>>, ghost days: int, ghost done: int)
    returns (files': map<string, seq<G>>, log': seq<Decision>)
    requires MonthInRange(cfg.inputYear, cfg.inputMonth) && 0 <= days < DaysInMonth(cfg.inputYear, cfg.inputMonth)
    requires current == DayStart(cfg.inputYear, cfg.inputMonth, days) && done == 4 * days
    requires Archive(files, log) == Crawled(cfg, existing, fetch, done)
    ensures Archive(files', log') == Crawled(cfg, existing, fetch, done + 4)
  {
    files', log' := files, log;
    ghost var n := done;
    for quarter := 0 to 4
      invariant n == done + quarter
      invariant Archive(files', log') == Crawled(cfg, existing, fetch, n)
    {
      QuarterStep(cfg, existing, fetch, current, days, quarter, n);
      n := n + 1;
      var startTime := AddSeconds(current, quarter * QuarterSeconds).value;
      var endTime := AddSeconds(current, (quarter + 1) * QuarterSeconds).value;
      var gameData := fetch(startTime, endTime);
      files', log' := SaveWindow(files', log', cfg, Window(current.day, quarter, startTime, endTime), gameData);
    }
  }

  /** The archive once the first `n` windows of the month have been handled. */
  ghost function Crawled<G>(cfg: Config, existing: map<string, seq<G>>, fetch: (DateTime, DateTime) -> Option<seq<G>>, n: int): Archive<G>
    requires MonthInRange(cfg.inputYear, cfg.inputMonth) && 0 <= n <= 4 * DaysInMonth(cfg.inputYear, cfg.inputMonth)
  {
    MonthNameable(cfg);
    Run(Archive(existing, []), cfg, MonthWindows(cfg.inputYear, cfg.inputMonth)[..n], fetch)
  }

  // ---------------------------------------------------------------------------
  // Lemmas

  /** Quarter `q` of day `d + 1` starts `d` days and `q` quarter-days after the month's first instant. */
  lemma QuarterStartSeconds(y: int, m: int, d: int, q: int)
    requires MonthInRange(y, m) && 0 <= d < DaysInMonth(y, m) && 0 <= q <= 4
    ensures Valid(QuarterStart(y, m, d, q))
    ensures Seconds(QuarterStart(y, m, d, q))
            == Seconds(DateTime(y, m, 1, 0, 0, 0)) + d * SecondsPerDay + q * QuarterSeconds
  {
    if q < 4 {
      DaySeconds(y, m, d + 1, 6 * q);
    } else if d + 1 < DaysInMonth(y, m) {
      DaySeconds(y, m, d + 2, 0);
    } else {
      NextMonthSeconds(y, m);
    }
  }

  /** Window `i` starts `i` quarter-days after the month does and lasts one quarter-day. */
  lemma WindowSeconds(y: int, m: int, i: int)
    requires MonthInRange(y, m) && 0 <= i < 4 * DaysInMonth(y, m)
    ensures Seconds(WindowAt(y, m, i).from) == Seconds(DateTime(y, m, 1, 0, 0, 0)) + i * QuarterSeconds
    ensures Seconds(WindowAt(y, m, i).to) == Seconds(WindowAt(y, m, i).from) + QuarterSeconds
  {
    QuarterStartSeconds(y, m, i / 4, i % 4);
    QuarterStartSeconds(y, m, i / 4, i % 4 + 1);
  }

  /** `current_date + timedelta(days=q/4)` from the midnight of day `d + 1` is the start of quarter `q`. */
  lemma QuarterBounds(y: int, m: int, d: int, q: int)
    requires MonthInRange(y, m) && 0 <= d < DaysInMonth(y, m) && 0 <= q <= 4
    ensures Valid(DayStart(y, m, d))
    ensures AddSeconds(DayStart(y, m, d), q * QuarterSeconds) == Ok(QuarterStart(y, m, d, q))
  {
    QuarterStartSeconds(y, m, d, 0);
    QuarterStartSeconds(y, m, d, q);
    var r := AddSeconds(DayStart(y, m, d), q * QuarterSeconds);
    BeforeIsSecondsOrder(r.value, QuarterStart(y, m, d, q));
  }

  /** One save decision: a window is written only when the fetch returned a non-empty list and
      its path is not taken; nothing already there changes; the report says which case it was. */
  lemma StepDecides<G>(a: Archive<G>, cfg: Config, w: Window, data: Option<seq<G>>)
    requires Nameable(cfg, w)
    ensures var r := Step(a, cfg, w, data);
      && |r.log| == |a.log| + 1 && r.log[..|a.log|] == a.log
      && (r.log[|a.log|].FetchFailed? <==> !Truthy(data))
      && (r.log[|a.log|].Saved? <==> Truthy(data) && WindowPath(cfg, w, |data.value|) !in a.files)
      && (forall p :: p in a.files ==> p in r.files && r.files[p] == a.files[p])
      && r.files.Keys - a.files.Keys
         == (if Truthy(data) && WindowPath(cfg, w, |data.value|) !in a.files
             then {WindowPath(cfg, w, |data.value|)} else {})
      && (Truthy(data) ==> forall p :: p in r.files && p !in a.files ==> r.files[p] == data.value)
  {
  }

  lemma RunSnoc<G>(a: Archive<G>, cfg: Config, ws: seq<Window>, k: int, fetch: (DateTime, DateTime) -> Option<seq<G>>)
    requires 0 <= k < |ws| && forall i :: 0 <= i < |ws| ==> Nameable(cfg, ws[i])
    ensures Run(a, cfg, ws[..k + 1], fetch)
      == Step(Run(a, cfg, ws[..k], fetch), cfg, ws[k], fetch(ws[k].from, ws[k].to))
  {
    assert ws[..k + 1][..k] == ws[..k];
  }

  /** Every window of an accepted month can be named. */
  lemma MonthNameable(cfg: Config)
    requires MonthInRange(cfg.inputYear, cfg.inputMonth)
    ensures var ws := MonthWindows(cfg.inputYear, cfg.inputMonth);
      forall i :: 0 <= i < |ws| ==> Nameable(cfg, ws[i])
  {
    var ws := MonthWindows(cfg.inputYear, cfg.inputMonth);
    forall i | 0 <= i < |ws| ensures Nameable(cfg, ws[i]) {
      assert ws[i] == WindowAt(cfg.inputYear, cfg.inputMonth, i);
    }
  }

  /** One pass of `main`'s quarter loop from the midnight `current` of day `d + 1` handles the
      month's window `n`: the bounds it computes name that window. */
  lemma QuarterStep<G>(cfg: Config, existing: map<string, seq<G>>, fetch: (DateTime, DateTime) -> Option<seq<G>>,
                       current: DateTime, d: int, q: int, n: int)
    requires MonthInRange(cfg.inputYear, cfg.inputMonth) && 0 <= d < DaysInMonth(cfg.inputYear, cfg.inputMonth)
    requires current == DayStart(cfg.inputYear, cfg.inputMonth, d) && 0 <= q < 4 && n == 4 * d + q
    ensures Valid(current)
    ensures AddSeconds(current, q * QuarterSeconds).Ok? && AddSeconds(current, (q + 1) * QuarterSeconds).Ok?
    ensures var w := Window(current.day, q, AddSeconds(current, q * QuarterSeconds).value,
                            AddSeconds(current, (q + 1) * QuarterSeconds).value);
      && Nameable(cfg, w)
      && Crawled(cfg, existing, fetch, n + 1) == Step(Crawled(cfg, existing, fetch, n), cfg, w, fetch(w.from, w.to))
  {
    var y, m := cfg.inputYear, cfg.inputMonth;
    QuarterBounds(y, m, d, q);
    QuarterBounds(y, m, d, q + 1);
    CrawledStep(cfg, existing, fetch, d, q, n);
    assert current.day == d + 1;
    assert Window(current.day, q, AddSeconds(current, q * QuarterSeconds).value,
                  AddSeconds(current, (q + 1) * QuarterSeconds).value)
        == Window(d + 1, q, QuarterStart(y, m, d, q), QuarterStart(y, m, d, q + 1));
  }

  /** Handling the month's window `n`, quarter `q` of day `d + 1`, adds its save decision. */
  lemma CrawledStep<G>(cfg: Config, existing: map<string, seq<G>>, fetch: (DateTime, DateTime) -> Option<seq<G>>,
                       d: int, q: int, n: int)
    requires MonthInRange(cfg.inputYear, cfg.inputMonth) && 0 <= d < DaysInMonth(cfg.inputYear, cfg.inputMonth)
    requires 0 <= q < 4 && n == 4 * d + q
    ensures var (y, m) := (cfg.inputYear, cfg.inputMonth);
      var w := Window(d + 1, q, QuarterStart(y, m, d, q), QuarterStart(y, m, d, q + 1));
      && Nameable(cfg, w)
      && Crawled(cfg, existing, fetch, n + 1) == Step(Crawled(cfg, existing, fetch, n), cfg, w, fetch(w.from, w.to))
  {
    var y, m := cfg.inputYear, cfg.inputMonth;
    MonthNameable(cfg);
    assert n / 4 == d && n % 4 == q;
    assert MonthWindows(y, m)[n] == Window(d + 1, q, QuarterStart(y, m, d, q), QuarterStart(y, m, d, q + 1)) by {
      assert MonthWindows(y, m)[n] == WindowAt(y, m, n);
    }
    RunSnoc(Archive(existing, []), cfg, MonthWindows(y, m), n, fetch);
  }

  /** After every day's four quarters the archive is the one `Run` gives for the whole month. */
  lemma CrawledMonth<G>(cfg: Config, existing: map<string, seq<G>>, fetch: (DateTime, DateTime) -> Option<seq<G>>, n: int)
    requires MonthInRange(cfg.inputYear, cfg.inputMonth) && n == 4 * DaysInMonth(cfg.inputYear, cfg.inputMonth)
    ensures Crawled(cfg, existing, fetch, n)
      == Run(Archive(existing, []), cfg, MonthWindows(cfg.inputYear, cfg.inputMonth), fetch)
  {
    var ws := MonthWindows(cfg.inputYear, cfg.inputMonth);
    assert ws[..|ws|] == ws;
  }
}
