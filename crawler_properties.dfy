/** What `main` promises about a month's windows and about the files it
    leaves behind, stated over the specification functions of `Crawler`. */
module CrawlerProperties {
  import opened Wrappers
  import opened Calendar
  import opened Naming
  import opened GameData
  import opened Crawler

  /** `dt` lies in the half-open window `[w.from, w.to)`. */
  predicate InWindow(dt: DateTime, w: Window) {
    !Before(dt, w.from) && Before(dt, w.to)
  }

  // ---------------------------------------------------------------------------
  // The windows of a month

  /** Each window ends where the next one starts, across midnights too. */
  lemma WindowsContiguous(y: int, m: int, i: int)
    requires MonthInRange(y, m) && 0 <= i < 4 * DaysInMonth(y, m) - 1
    ensures MonthWindows(y, m)[i].to == MonthWindows(y, m)[i + 1].from
  {
    var ws := MonthWindows(y, m);
    assert ws[i] == WindowAt(y, m, i) && ws[i + 1] == WindowAt(y, m, i + 1);
    if i % 4 == 3 {
      assert (i + 1) / 4 == i / 4 + 1 && (i + 1) % 4 == 0;
    } else {
      assert (i + 1) / 4 == i / 4 && (i + 1) % 4 == i % 4 + 1;
    }
  }

  /** Day `d + 1` gets windows `4d .. 4d + 3`, quarter `q` from hour `6q`: the first starts at the
      day's midnight and the last ends at the next midnight (the next month's first instant after
      the last day). */
  lemma DayQuarters(y: int, m: int, d: int, q: int)
    requires MonthInRange(y, m) && 0 <= d < DaysInMonth(y, m) && 0 <= q < 4
    ensures var w := MonthWindows(y, m)[4 * d + q];
      && w.day == d + 1 && w.quarter == q
      && w.from == DateTime(y, m, d + 1, 6 * q, 0, 0)
      && (q < 3 ==> w.to == DateTime(y, m, d + 1, 6 * (q + 1), 0, 0))
      && (q == 3 && d + 1 < DaysInMonth(y, m) ==> w.to == DateTime(y, m, d + 2, 0, 0, 0))
      && (q == 3 && d + 1 == DaysInMonth(y, m) ==> w.to == NextMonthStart(y, m))
  {
    assert (4 * d + q) / 4 == d && (4 * d + q) % 4 == q;
    assert MonthWindows(y, m)[4 * d + q] == WindowAt(y, m, 4 * d + q);
  }

  /** Window `i` belongs to day `i / 4 + 1`: the days come in increasing order, four windows each. */
  lemma DaysInOrder(y: int, m: int, i: int, j: int)
    requires MonthInRange(y, m) && 0 <= i <= j < 4 * DaysInMonth(y, m)
    ensures MonthWindows(y, m)[i].day == i / 4 + 1 && MonthWindows(y, m)[i].quarter == i % 4
    ensures MonthWindows(y, m)[i].day <= MonthWindows(y, m)[j].day
  {
    assert MonthWindows(y, m)[i] == WindowAt(y, m, i);
    assert MonthWindows(y, m)[j] == WindowAt(y, m, j);
  }

  /** The first window starts with the month and the last one ends one second after the month's end. */
  lemma MonthWindowsSpan(y: int, m: int)
    requires MonthInRange(y, m)
    ensures var (start, end) := GetMonthRange(y, m).value;
      var ws := MonthWindows(y, m);
      && ws[0].from == start
      && Valid(ws[|ws| - 1].to) && Seconds(ws[|ws| - 1].to) == Seconds(end) + 1
  {
    var ws := MonthWindows(y, m);
    DayQuarters(y, m, 0, 0);
    DayQuarters(y, m, DaysInMonth(y, m) - 1, 3);
    MonthRangeSpan(y, m);
  }

  /** An instant lies in window `i` exactly when it is `i` to `i + 1` quarter-days past the month's start. */
  lemma InWindowSeconds(y: int, m: int, i: int, dt: DateTime)
    requires MonthInRange(y, m) && 0 <= i < 4 * DaysInMonth(y, m) && Valid(dt)
    ensures var s0 := Seconds(DateTime(y, m, 1, 0, 0, 0));
      InWindow(dt, MonthWindows(y, m)[i])
      <==> s0 + i * QuarterSeconds <= Seconds(dt) < s0 + (i + 1) * QuarterSeconds
  {
    var w := MonthWindows(y, m)[i];
    assert w == WindowAt(y, m, i);
    WindowSeconds(y, m, i);
    BeforeIsSecondsOrder(dt, w.from);
    BeforeIsSecondsOrder(dt, w.to);
  }

  /** The windows cover the month: an instant is between the month's start and end, both included,
      exactly when some window holds it. */
  lemma WindowsCoverMonth(y: int, m: int, dt: DateTime)
    requires MonthInRange(y, m) && Valid(dt)
    ensures var (start, end) := GetMonthRange(y, m).value;
      var ws := MonthWindows(y, m);
      (!Before(dt, start) && !Before(end, dt)) <==> exists i :: 0 <= i < |ws| && InWindow(dt, ws[i])
  {
    var (start, end) := GetMonthRange(y, m).value;
    var ws := MonthWindows(y, m);
    MonthRangeSpan(y, m);
    BeforeIsSecondsOrder(dt, start);
    BeforeIsSecondsOrder(end, dt);
    if !Before(dt, start) && !Before(end, dt) {
      var i := QuarterIndex(Seconds(dt) - Seconds(start), DaysInMonth(y, m));
      InWindowSeconds(y, m, i, dt);
    }
    forall i | 0 <= i < |ws| && InWindow(dt, ws[i])
      ensures !Before(dt, start) && !Before(end, dt)
    {
      InWindowSeconds(y, m, i, dt);
    }
  }

  /** The quarter-day that an offset into a span of `days` whole days falls in. */
  lemma QuarterIndex(offset: int, days: nat) returns (i: int)
    requires 0 <= offset < days * 86400
    ensures 0 <= i < 4 * days && i * QuarterSeconds <= offset < (i + 1) * QuarterSeconds
  {
    i := offset / QuarterSeconds;
    assert i * QuarterSeconds <= offset < i * QuarterSeconds + QuarterSeconds;
    assert offset < (4 * days) * QuarterSeconds;
  }

  /** The windows do not overlap: no instant lies in two of them. */
  lemma WindowsDisjoint(y: int, m: int, i: int, j: int, dt: DateTime)
    requires MonthInRange(y, m) && 0 <= i < 4 * DaysInMonth(y, m) && 0 <= j < 4 * DaysInMonth(y, m) && Valid(dt)
    requires InWindow(dt, MonthWindows(y, m)[i]) && InWindow(dt, MonthWindows(y, m)[j])
    ensures i == j
  {
    InWindowSeconds(y, m, i, dt);
    InWindowSeconds(y, m, j, dt);
  }

  // ---------------------------------------------------------------------------
  // The save decisions over a sequence of windows

  predicate AllNameable(cfg: Config, ws: seq<Window>) {
    forall i :: 0 <= i < |ws| ==> Nameable(cfg, ws[i])
  }

  /** What the fetch returned for window `w`. */
  function FetchedFor<G>(fetch: (DateTime, DateTime) -> Option<seq<G>>, w: Window): Option<seq<G>> {
    fetch(w.from, w.to)
  }

  /** A run over a non-empty sequence ends with the decision for its last window. */
  lemma RunLast<G>(a: Archive<G>, cfg: Config, ws: seq<Window>, init: seq<Window>, w: Window,
                   fetch: (DateTime, DateTime) -> Option<seq<G>>)
    requires AllNameable(cfg, ws) && ws == init + [w]
    ensures AllNameable(cfg, init) && Nameable(cfg, w)
    ensures Run(a, cfg, ws, fetch) == Step(Run(a, cfg, init, fetch), cfg, w, FetchedFor(fetch, w))
  {
    assert ws[..|ws| - 1] == init && ws[|ws| - 1] == w;
  }

  /** Handling `ws1` and then `ws2` is handling `ws1 + ws2`. */
  lemma {:induction false} RunAppend<G>(a: Archive<G>, cfg: Config, ws1: seq<Window>, ws2: seq<Window>,
                                        fetch: (DateTime, DateTime) -> Option<seq<G>>)
    requires AllNameable(cfg, ws1) && AllNameable(cfg, ws2)
    ensures AllNameable(cfg, ws1 + ws2)
    ensures Run(a, cfg, ws1 + ws2, fetch) == Run(Run(a, cfg, ws1, fetch), cfg, ws2, fetch)
    decreases |ws2|
  {
    if ws2 == [] {
      assert ws1 + ws2 == ws1;
    } else {
      var init, w := ws2[..|ws2| - 1], ws2[|ws2| - 1];
      assert ws2 == init + [w];
      assert ws1 + ws2 == (ws1 + init) + [w];
      assert AllNameable(cfg, ws1 + ws2);
      RunAppend(a, cfg, ws1, init, fetch);
      RunLast(a, cfg, ws1 + ws2, ws1 + init, w, fetch);
      RunLast(Run(a, cfg, ws1, fetch), cfg, ws2, init, w, fetch);
    }
  }

  /** A run never changes or removes a file that was there before it, and it reports exactly one
      decision per window after the reports it started with. */
  lemma {:induction false} RunKeeps<G>(a: Archive<G>, cfg: Config, ws: seq<Window>, fetch: (DateTime, DateTime) -> Option<seq<G>>)
    requires AllNameable(cfg, ws)
    ensures var r := Run(a, cfg, ws, fetch);
      && |r.log| == |a.log| + |ws| && r.log[..|a.log|] == a.log
      && (forall p :: p in a.files ==> p in r.files && r.files[p] == a.files[p])
  {
    if ws != [] {
      var init, w := ws[..|ws| - 1], ws[|ws| - 1];
      assert ws == init + [w];
      RunLast(a, cfg, ws, init, w, fetch);
      RunKeeps(a, cfg, init, fetch);
      var prev := Run(a, cfg, init, fetch);
      StepDecides(prev, cfg, w, FetchedFor(fetch, w));
      assert prev.log[..|a.log|] == a.log;
    }
  }

  /** A run is the run up to window `k`, the decision for window `k`, and the run over the rest. */
  lemma RunSplit<G>(a: Archive<G>, cfg: Config, ws: seq<Window>, fetch: (DateTime, DateTime) -> Option<seq<G>>, k: int)
    requires AllNameable(cfg, ws) && 0 <= k < |ws|
    ensures AllNameable(cfg, ws[..k]) && AllNameable(cfg, ws[k + 1..])
    ensures Run(a, cfg, ws, fetch)
      == Run(Step(Run(a, cfg, ws[..k], fetch), cfg, ws[k], FetchedFor(fetch, ws[k])), cfg, ws[k + 1..], fetch)
  {
    var head, rest := ws[..k + 1], ws[k + 1..];
    assert head == ws[..k] + [ws[k]];
    assert head + rest == ws;
    assert AllNameable(cfg, head) && AllNameable(cfg, rest);
    RunLast(a, cfg, head, ws[..k], ws[k], fetch);
    RunAppend(a, cfg, head, rest, fetch);
  }

  /** The report and the files the decision for window `k` leaves are still there at the end of the run. */
  lemma RunEntry<G>(a: Archive<G>, cfg: Config, ws: seq<Window>, fetch: (DateTime, DateTime) -> Option<seq<G>>, k: int)
    requires AllNameable(cfg, ws) && 0 <= k < |ws|
    ensures AllNameable(cfg, ws[..k])
    ensures var prev := Run(a, cfg, ws[..k], fetch);
      var pre := Step(prev, cfg, ws[k], FetchedFor(fetch, ws[k]));
      var r := Run(a, cfg, ws, fetch);
      && |prev.log| == |a.log| + k && |pre.log| == |a.log| + k + 1 && |r.log| == |a.log| + |ws|
      && r.log[|a.log| + k] == pre.log[|a.log| + k]
      && (forall p :: p in pre.files ==> p in r.files && r.files[p] == pre.files[p])
  {
    RunSplit(a, cfg, ws, fetch, k);
    var prev := Run(a, cfg, ws[..k], fetch);
    var pre := Step(prev, cfg, ws[k], FetchedFor(fetch, ws[k]));
    RunKeeps(a, cfg, ws[..k], fetch);
    StepDecides(prev, cfg, ws[k], FetchedFor(fetch, ws[k]));
    RunKeeps(pre, cfg, ws[k + 1..], fetch);
    var r := Run(a, cfg, ws, fetch);
    assert r.log[|a.log| + k] == r.log[..|pre.log|][|a.log| + k];
  }

  /** The `k`-th report of a run is about the `k`-th window: a failed fetch for a falsy result,
      otherwise the window's folder and file name with the number of games fetched. */
  lemma RunLog<G>(a: Archive<G>, cfg: Config, ws: seq<Window>, fetch: (DateTime, DateTime) -> Option<seq<G>>, k: int)
    requires AllNameable(cfg, ws) && 0 <= k < |ws|
    ensures |Run(a, cfg, ws, fetch).log| == |a.log| + |ws|
    ensures var w, data := ws[k], FetchedFor(fetch, ws[k]);
      var e := Run(a, cfg, ws, fetch).log[|a.log| + k];
      && (!Truthy(data) ==> e == FetchFailed(w.from, w.quarter))
      && (Truthy(data) ==>
            && (e.Saved? || e.AlreadyExists?)
            && e.folder == Folder(cfg.inputYear, cfg.inputMonth, w.day)
            && e.name == FileName(w.from, w.to, cfg.gameMode, |data.value|))
      && (e.Saved? ==> e.matches == |data.value|)
  {
    RunEntry(a, cfg, ws, fetch, k);
  }

  /** After a run, every window whose fetch was truthy has its file, whether it was there before or saved now. */
  lemma RunCoversTruthy<G>(a: Archive<G>, cfg: Config, ws: seq<Window>, fetch: (DateTime, DateTime) -> Option<seq<G>>, k: int)
    requires AllNameable(cfg, ws) && 0 <= k < |ws| && Truthy(FetchedFor(fetch, ws[k]))
    ensures WindowPath(cfg, ws[k], |FetchedFor(fetch, ws[k]).value|) in Run(a, cfg, ws, fetch).files
  {
    RunEntry(a, cfg, ws, fetch, k);
    StepDecides(Run(a, cfg, ws[..k], fetch), cfg, ws[k], FetchedFor(fetch, ws[k]));
  }

  /** File `p` of `files` is the one window `w` was saved in: the fetch for `w` was truthy, `p` is
      named after `w` and its number of games, and the file holds exactly the games fetched. */
  ghost predicate SavedAs<G>(cfg: Config, w: Window, fetch: (DateTime, DateTime) -> Option<seq<G>>,
                             files: map<string, seq<G>>, p: string)
    requires Nameable(cfg, w)
  {
    && Truthy(FetchedFor(fetch, w))
    && p == WindowPath(cfg, w, |FetchedFor(fetch, w).value|)
    && p in files && files[p] == FetchedFor(fetch, w).value
  }

  /** File `p` of `files` was saved for some window of `ws`. */
  ghost predicate FromTruthyWindow<G>(cfg: Config, ws: seq<Window>, fetch: (DateTime, DateTime) -> Option<seq<G>>,
                                      files: map<string, seq<G>>, p: string)
    requires AllNameable(cfg, ws)
  {
    exists k :: 0 <= k < |ws| && SavedAs(cfg, ws[k], fetch, files, p)
  }

  lemma FromTruthyWindowExtend<G>(cfg: Config, init: seq<Window>, w: Window, fetch: (DateTime, DateTime) -> Option<seq<G>>,
                                  before: map<string, seq<G>>, after: map<string, seq<G>>, p: string)
    requires AllNameable(cfg, init) && AllNameable(cfg, init + [w]) && FromTruthyWindow(cfg, init, fetch, before, p)
    requires p in after && after[p] == before[p]
    ensures FromTruthyWindow(cfg, init + [w], fetch, after, p)
  {
    var k :| 0 <= k < |init| && SavedAs(cfg, init[k], fetch, before, p);
    SavedAsKept(cfg, init[k], fetch, before, after, p);
    assert (init + [w])[k] == init[k];
    assert SavedAs(cfg, (init + [w])[k], fetch, after, p);
  }

  /** A saved file stays saved while its contents are left alone. */
  lemma SavedAsKept<G>(cfg: Config, w: Window, fetch: (DateTime, DateTime) -> Option<seq<G>>,
                       before: map<string, seq<G>>, after: map<string, seq<G>>, p: string)
    requires Nameable(cfg, w) && SavedAs(cfg, w, fetch, before, p)
    requires p in after && after[p] == before[p]
    ensures SavedAs(cfg, w, fetch, after, p)
  {
  }

  lemma FromTruthyWindowLast<G>(cfg: Config, init: seq<Window>, w: Window, fetch: (DateTime, DateTime) -> Option<seq<G>>,
                                files: map<string, seq<G>>, p: string)
    requires AllNameable(cfg, init + [w]) && Nameable(cfg, w) && SavedAs(cfg, w, fetch, files, p)
    ensures FromTruthyWindow(cfg, init + [w], fetch, files, p)
  {
    assert (init + [w])[|init|] == w;
  }

  /** Every file a run adds comes from a window whose fetch was truthy: nothing is written for
      `None` or an empty list. */
  lemma {:induction false} RunNewFiles<G>(a: Archive<G>, cfg: Config, ws: seq<Window>, fetch: (DateTime, DateTime) -> Option<seq<G>>)
    requires AllNameable(cfg, ws)
    ensures var r := Run(a, cfg, ws, fetch);
      forall p :: p in r.files && p !in a.files ==> FromTruthyWindow(cfg, ws, fetch, r.files, p)
  {
    if ws != [] {
      var init, w := ws[..|ws| - 1], ws[|ws| - 1];
      assert ws == init + [w];
      RunLast(a, cfg, ws, init, w, fetch);
      RunNewFiles(a, cfg, init, fetch);
      var prev := Run(a, cfg, init, fetch);
      var r := Run(a, cfg, ws, fetch);
      StepDecides(prev, cfg, w, FetchedFor(fetch, w));
      forall p | p in r.files && p !in a.files
        ensures FromTruthyWindow(cfg, ws, fetch, r.files, p)
      {
        if p in prev.files {
          FromTruthyWindowExtend(cfg, init, w, fetch, prev.files, r.files, p);
        } else {
          FromTruthyWindowLast(cfg, init, w, fetch, r.files, p);
        }
      }
    }
  }

  /** A run in which every truthy window's file is already there writes nothing. */
  lemma {:induction false} RunStable<G>(a: Archive<G>, cfg: Config, ws: seq<Window>, fetch: (DateTime, DateTime) -> Option<seq<G>>)
    requires AllNameable(cfg, ws)
    requires forall k :: 0 <= k < |ws| && Truthy(FetchedFor(fetch, ws[k])) ==>
      WindowPath(cfg, ws[k], |FetchedFor(fetch, ws[k]).value|) in a.files
    ensures Run(a, cfg, ws, fetch).files == a.files
  {
    if ws != [] {
      var init, w := ws[..|ws| - 1], ws[|ws| - 1];
      forall k | 0 <= k < |init| && Truthy(FetchedFor(fetch, init[k]))
        ensures WindowPath(cfg, init[k], |FetchedFor(fetch, init[k]).value|) in a.files
      {
        assert init[k] == ws[k];
      }
      assert ws == init + [w];
      RunLast(a, cfg, ws, init, w, fetch);
      RunStable(a, cfg, init, fetch);
      StepDecides(Run(a, cfg, init, fetch), cfg, w, FetchedFor(fetch, w));
    }
  }

  /** Running the crawler again over the same windows, with the fetch returning the same lists,
      writes no file: every path it would write already exists. */
  lemma RerunWritesNothing<G>(a: Archive<G>, cfg: Config, ws: seq<Window>, fetch: (DateTime, DateTime) -> Option<seq<G>>,
                              log: seq<Decision>)
    requires AllNameable(cfg, ws)
    ensures var first := Run(a, cfg, ws, fetch);
      Run(Archive(first.files, log), cfg, ws, fetch).files == first.files
  {
    var first := Run(a, cfg, ws, fetch);
    forall k | 0 <= k < |ws| && Truthy(FetchedFor(fetch, ws[k]))
      ensures WindowPath(cfg, ws[k], |FetchedFor(fetch, ws[k]).value|) in first.files
    {
      RunCoversTruthy(a, cfg, ws, fetch, k);
    }
    RunStable(Archive(first.files, log), cfg, ws, fetch);
  }

  /** Within a month, a saved path determines the window and the number of games it was named after. */
  lemma WindowPathInjective(cfg: Config, i: int, j: int, n1: nat, n2: nat)
    requires MonthInRange(cfg.inputYear, cfg.inputMonth)
    requires 0 <= i < 4 * DaysInMonth(cfg.inputYear, cfg.inputMonth) && 0 <= j < 4 * DaysInMonth(cfg.inputYear, cfg.inputMonth)
    requires var ws := MonthWindows(cfg.inputYear, cfg.inputMonth);
      Nameable(cfg, ws[i]) && Nameable(cfg, ws[j]) && WindowPath(cfg, ws[i], n1) == WindowPath(cfg, ws[j], n2)
    ensures i == j && n1 == n2
  {
    var y, m := cfg.inputYear, cfg.inputMonth;
    var ws := MonthWindows(y, m);
    var wi, wj := ws[i], ws[j];
    var name1, name2 := FileName(wi.from, wi.to, cfg.gameMode, n1), FileName(wj.from, wj.to, cfg.gameMode, n2);
    PathInjective(y, m, wi.day, wj.day, name1, name2);
    FileNameRoundTrip(wi.from, wi.to, cfg.gameMode, n1);
    FileNameRoundTrip(wj.from, wj.to, cfg.gameMode, n2);
    assert ws[i] == WindowAt(y, m, i) && ws[j] == WindowAt(y, m, j);
    WindowSeconds(y, m, i);
    WindowSeconds(y, m, j);
  }

  /** No two windows of `ws` share a path, whatever their numbers of games. */
  ghost predicate DistinctPaths(cfg: Config, ws: seq<Window>)
    requires AllNameable(cfg, ws)
  {
    forall i, j, n1: nat, n2: nat ::
      (0 <= i < |ws| && 0 <= j < |ws| && WindowPath(cfg, ws[i], n1) == WindowPath(cfg, ws[j], n2)) ==> i == j
  }

  /** The windows of a month are saved under pairwise distinct paths. */
  lemma MonthPathsDistinct(cfg: Config)
    requires MonthInRange(cfg.inputYear, cfg.inputMonth)
    ensures AllNameable(cfg, MonthWindows(cfg.inputYear, cfg.inputMonth))
    ensures DistinctPaths(cfg, MonthWindows(cfg.inputYear, cfg.inputMonth))
  {
    var ws := MonthWindows(cfg.inputYear, cfg.inputMonth);
    MonthNameable(cfg);
    forall i, j, n1: nat, n2: nat | 0 <= i < |ws| && 0 <= j < |ws| && WindowPath(cfg, ws[i], n1) == WindowPath(cfg, ws[j], n2)
      ensures i == j
    {
      WindowPathInjective(cfg, i, j, n1, n2);
    }
  }

  /** When distinct windows have distinct paths, a run saves every window whose fetch was truthy and
      whose path was not already taken: the file holds the games fetched and the report says so. */
  lemma RunSavesFresh<G>(a: Archive<G>, cfg: Config, ws: seq<Window>, fetch: (DateTime, DateTime) -> Option<seq<G>>, k: int)
    requires AllNameable(cfg, ws) && DistinctPaths(cfg, ws) && 0 <= k < |ws|
    requires Truthy(FetchedFor(fetch, ws[k])) && WindowPath(cfg, ws[k], |FetchedFor(fetch, ws[k]).value|) !in a.files
    ensures var w, data := ws[k], FetchedFor(fetch, ws[k]).value;
      var r := Run(a, cfg, ws, fetch);
      && WindowPath(cfg, w, |data|) in r.files && r.files[WindowPath(cfg, w, |data|)] == data
      && |r.log| == |a.log| + |ws|
      && r.log[|a.log| + k] == Saved(Folder(cfg.inputYear, cfg.inputMonth, w.day), FileName(w.from, w.to, cfg.gameMode, |data|), |data|)
  {
    var w := ws[k];
    var p := WindowPath(cfg, w, |FetchedFor(fetch, w).value|);
    RunEntry(a, cfg, ws, fetch, k);
    var before := ws[..k];
    var prev := Run(a, cfg, before, fetch);
    NotYetSaved(a, cfg, ws, fetch, k);
    StepDecides(prev, cfg, w, FetchedFor(fetch, w));
  }

  /** Under distinct paths, the path of window `k` is not among the files the windows before it saved. */
  lemma NotYetSaved<G>(a: Archive<G>, cfg: Config, ws: seq<Window>, fetch: (DateTime, DateTime) -> Option<seq<G>>, k: int)
    requires AllNameable(cfg, ws) && DistinctPaths(cfg, ws) && 0 <= k < |ws|
    requires Truthy(FetchedFor(fetch, ws[k])) && WindowPath(cfg, ws[k], |FetchedFor(fetch, ws[k]).value|) !in a.files
    ensures AllNameable(cfg, ws[..k])
    ensures WindowPath(cfg, ws[k], |FetchedFor(fetch, ws[k]).value|) !in Run(a, cfg, ws[..k], fetch).files
  {
    var before := ws[..k];
    assert AllNameable(cfg, before);
    var prev := Run(a, cfg, before, fetch);
    var p := WindowPath(cfg, ws[k], |FetchedFor(fetch, ws[k]).value|);
    RunNewFiles(a, cfg, before, fetch);
    forall j | 0 <= j < |before|
      ensures !SavedAs(cfg, before[j], fetch, prev.files, p)
    {
      assert before[j] == ws[j];
    }
  }

  /** The report for a window whose fetch was truthy names a folder that reads back as the year, the
      zero-padded month and day, and a file name that reads back as the window's bounds, the mode and
      the number of games fetched. */
  lemma DecisionNames<G>(a: Archive<G>, cfg: Config, ws: seq<Window>, fetch: (DateTime, DateTime) -> Option<seq<G>>, k: int)
    requires AllNameable(cfg, ws) && 0 <= k < |ws| && Truthy(FetchedFor(fetch, ws[k]))
    ensures |Run(a, cfg, ws, fetch).log| == |a.log| + |ws|
    ensures var e := Run(a, cfg, ws, fetch).log[|a.log| + k];
      && !e.FetchFailed?
      && ParseFolder(e.folder) == Some(FolderFields(cfg.inputYear, cfg.inputMonth, ws[k].day))
      && ParseFileName(e.name)
         == Some(FileNameFields(ws[k].from, ws[k].to, cfg.gameMode, |FetchedFor(fetch, ws[k]).value|))
  {
    RunLog(a, cfg, ws, fetch, k);
    FolderRoundTrip(cfg.inputYear, cfg.inputMonth, ws[k].day);
    FileNameRoundTrip(ws[k].from, ws[k].to, cfg.gameMode, |FetchedFor(fetch, ws[k]).value|);
  }
}
