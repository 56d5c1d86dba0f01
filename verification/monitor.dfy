/** The activity monitor monitorGameProcess, which the comments of the
    Steam source and of the launch path name as the way Steam launches are
    watched; nothing calls it, since Steam's MonitorProcess is empty (see
    SteamStatusesAsWritten and SteamStatuses). Once a second it asks
    whether any process runs from the game's install directory; the first
    positive answer emits "running", and once the game has been seen and
    nothing has run for more than ten seconds it emits "stopped" and ends.
    Times are milliseconds; the process listing is an input per tick.
    The test for "runs from the install directory" looks at each process's
    executable and, for Wine and Proton games, at its command line with the
    Windows drive and separators normalised. */
module Monitor {
  import opened Wrappers
  import opened Text

  const StopThresholdMs := 10_000

  datatype LaunchStatus = Launching | Running | Stopped | Failed

  /** The loop's variables: whether the game has been seen running, when it
      was last seen, and whether the loop has returned. */
  datatype Monitor = Monitor(hasBeenRunning: bool, lastSeen: int, done: bool)

  const Initial := Monitor(false, 0, false)

  /** One poll of the process list; a failed listing is skipped. */
  datatype Poll = PollFailed | Poll(running: bool)

  datatype Tick = Tick(now: int, poll: Poll)

  datatype Step = Step(next: Monitor, emitted: seq<LaunchStatus>)

  predicate QuietTooLong(m: Monitor, now: int) {
    now - m.lastSeen > StopThresholdMs
  }

  /** One iteration of the ticker loop. A stopped monitor ignores ticks. */
  function OnTick(m: Monitor, t: Tick): (s: Step)
    ensures m.done || t.poll.PollFailed? ==> s == Step(m, [])
    ensures |s.emitted| <= 1
    ensures s.emitted == [Running] <==> !m.done && t.poll == Poll(true) && !m.hasBeenRunning
    ensures s.emitted == [Stopped] <==>
              !m.done && t.poll == Poll(false) && m.hasBeenRunning && QuietTooLong(m, t.now)
    ensures s.next.done <==> m.done || s.emitted == [Stopped]
    ensures !m.done && t.poll == Poll(true) ==> s.next == Monitor(true, t.now, false)
    ensures t.poll != Poll(true) ==> s.next.hasBeenRunning == m.hasBeenRunning && s.next.lastSeen == m.lastSeen
  {
    if m.done then Step(m, [])
    else match t.poll
      case PollFailed => Step(m, [])
      case Poll(running) =>
        if running then
          Step(Monitor(true, t.now, false), if m.hasBeenRunning then [] else [Running])
        else if m.hasBeenRunning && QuietTooLong(m, t.now) then
          Step(m.(done := true), [Stopped])
        else Step(m, [])
  }

  /** The loop over a sequence of ticks, up to the point where it returns. */
  function Run(m: Monitor, ticks: seq<Tick>): Step
    decreases |ticks|
  {
    if ticks == [] || m.done then Step(m, [])
    else
      var s := OnTick(m, ticks[0]);
      var rest := Run(s.next, ticks[1..]);
      Step(rest.next, s.emitted + rest.emitted)
  }

  /** Whatever the polls say, "running" is emitted at most once and first,
      "stopped" at most once and only after "running" has been seen, and
      the loop ends exactly when "stopped" is emitted. */
  lemma {:induction false} RunShape(m: Monitor, ticks: seq<Tick>)
    ensures m.done ==> Run(m, ticks).emitted == []
    ensures !m.done && m.hasBeenRunning ==>
              Run(m, ticks).emitted == [] || Run(m, ticks).emitted == [Stopped]
    ensures !m.done && !m.hasBeenRunning ==>
              Run(m, ticks).emitted == [] || Run(m, ticks).emitted == [Running]
              || Run(m, ticks).emitted == [Running, Stopped]
    ensures Run(m, ticks).next.done <==> m.done || Stopped in Run(m, ticks).emitted
    decreases |ticks|
  {
    if ticks != [] && !m.done {
      var s := OnTick(m, ticks[0]);
      RunShape(s.next, ticks[1..]);
    }
  }

  /** From the start the trace is one of: nothing, "running", or "running"
      then "stopped". */
  lemma InitialTrace(ticks: seq<Tick>)
    ensures var e := Run(Initial, ticks).emitted;
            e == [] || e == [Running] || e == [Running, Stopped]
  {
    RunShape(Initial, ticks);
  }

  /** The debounce: once the game has been seen, negative or failed polls
      within ten seconds of the last sighting never stop the monitor. */
  lemma {:induction false} ShortGapsKeepRunning(m: Monitor, ticks: seq<Tick>)
    requires !m.done && m.hasBeenRunning
    requires forall k :: 0 <= k < |ticks| ==> ticks[k].poll != Poll(true) && !QuietTooLong(m, ticks[k].now)
    ensures Run(m, ticks) == Step(m, [])
    decreases |ticks|
  {
    if ticks != [] {
      var s := OnTick(m, ticks[0]);
      assert s == Step(m, []);
      ShortGapsKeepRunning(m, ticks[1..]);
    }
  }

  /** A negative poll more than ten seconds after the last sighting stops
      the monitor. */
  lemma LongGapStops(m: Monitor, now: int)
    requires !m.done && m.hasBeenRunning && QuietTooLong(m, now)
    ensures Run(m, [Tick(now, Poll(false))]) == Step(m.(done := true), [Stopped])
  {
  }

  // ---------------------------------------------------------------------
  // Which processes belong to the game

  /** normalizeWinePath: a path longer than two characters whose second
      character is ':' loses that drive prefix; then every '\\' becomes '/'. */
  function NormalizeWinePath(path: string): (r: string)
    ensures '\\' !in r
    ensures |path| > 2 && path[1] == ':' ==> |r| == |path| - 2
    ensures !(|path| > 2 && path[1] == ':') ==> |r| == |path|
    ensures var d := if |path| > 2 && path[1] == ':' then 2 else 0;
      forall k :: 0 <= k < |r| ==> r[k] == (if path[d + k] == '\\' then '/' else path[d + k])
  {
    var body := if |path| > 2 && path[1] == ':' then path[2..] else path;
    ReplaceChar(body, '\\', '/')
  }

  /** A Unix path with no drive prefix and no backslash is left alone. */
  lemma UnixPathUnchanged(path: string)
    requires '\\' !in path
    requires !(|path| > 2 && path[1] == ':')
    ensures NormalizeWinePath(path) == path
  {
    assert forall k :: 0 <= k < |path| ==> path[k] != '\\';
  }

  /** How Wine shows a Unix path: a drive letter, ':', and the path with
      every '/' turned into '\\'. */
  function WineForm(drive: char, path: string): (w: string)
    ensures |w| == |path| + 2 && w[1] == ':'
  {
    [drive, ':'] + ReplaceChar(path, '/', '\\')
  }

  /** Normalising the Wine form of a non-empty, backslash-free Unix path
      gives that path back. */
  lemma WinePathRecovered(drive: char, path: string)
    requires path != [] && '\\' !in path
    ensures NormalizeWinePath(WineForm(drive, path)) == path
  {
    var w := WineForm(drive, path);
    assert w[2..] == ReplaceChar(path, '/', '\\');
    assert forall k :: 0 <= k < |path| ==> path[k] != '\\';
  }

  /** What the process listing reports about one process; a field that
      could not be read is None. */
  datatype Process = Process(exe: Option<string>, cmdline: Option<string>)

  /** A process runs from the install path when its executable starts with
      it, or its normalised command line contains it. */
  predicate InPath(p: Process, installPath: string) {
    || (p.exe.Some? && HasPrefix(p.exe.value, installPath))
    || (p.cmdline.Some? && Contains(NormalizeWinePath(p.cmdline.value), installPath))
  }

  function AnyInPath(ps: seq<Process>, installPath: string): (r: bool)
    ensures r <==> exists k :: 0 <= k < |ps| && InPath(ps[k], installPath)
  {
    if ps == [] then false
    else if InPath(ps[0], installPath) then true
    else
      var rest := AnyInPath(ps[1..], installPath);
      assert forall k :: 1 <= k < |ps| ==> ps[k] == ps[1..][k - 1];
      rest
  }

  /** isProcessRunningInPath: a failed listing is an error; otherwise
      whether some process runs from the install path. */
  function IsProcessRunningInPath(procs: Result<seq<Process>>, installPath: string): (r: Result<bool>)
    ensures r.Err? <==> procs.Err?
    ensures r.Ok? ==> (r.value <==> exists k :: 0 <= k < |procs.value| && InPath(procs.value[k], installPath))
  {
    match procs
    case Err(e) => Err(e)
    case Ok(ps) => Ok(AnyInPath(ps, installPath))
  }

  /** A Proton game whose command line is the Wine form of its install path
      is seen running, though its executable path is unreadable. */
  lemma WineGameSeen(drive: char, installPath: string, ps: seq<Process>, k: nat)
    requires installPath != [] && '\\' !in installPath
    requires k < |ps| && ps[k] == Process(None, Some(WineForm(drive, installPath)))
    ensures IsProcessRunningInPath(Ok(ps), installPath) == Ok(true)
  {
    WinePathRecovered(drive, installPath);
    assert OccursAt(installPath, installPath, 0);
    assert InPath(ps[k], installPath);
  }

  // ---------------------------------------------------------------------
  // Which statuses a Steam launch reports

  /** From a monitor that has not yet seen the game, "running" is emitted
      exactly when some poll finds the game running. */
  lemma {:induction false} RunningReportedIffSeen(m: Monitor, ticks: seq<Tick>)
    requires !m.done && !m.hasBeenRunning
    ensures Running in Run(m, ticks).emitted <==> exists k :: 0 <= k < |ticks| && ticks[k].poll == Poll(true)
    decreases |ticks|
  {
    if ticks != [] {
      var s := OnTick(m, ticks[0]);
      if ticks[0].poll == Poll(true) {
        assert s.emitted == [Running];
      } else {
        assert s == Step(m, []);
        RunningReportedIffSeen(m, ticks[1..]);
        assert forall k :: 1 <= k < |ticks| ==> ticks[k] == ticks[1..][k - 1];
      }
    }
  }

  /** The statuses of a successful Steam launch as shipped: "launching",
      then nothing, because Steam's MonitorProcess is empty and nothing
      calls the polling monitor. The polls are never looked at. */
  function SteamStatusesAsWritten(ticks: seq<Tick>): (r: seq<LaunchStatus>)
    ensures Running !in r && Stopped !in r
  {
    [Launching]
  }

  /** A Steam game that is plainly running is never reported as running. */
  lemma SteamRunningUnreported(now: int)
    ensures var ticks := [Tick(now, Poll(true))];
      exists k :: 0 <= k < |ticks| && ticks[k].poll == Poll(true)
    ensures Running !in SteamStatusesAsWritten([Tick(now, Poll(true))])
  {
    assert [Tick(now, Poll(true))][0].poll == Poll(true);
  }

  /** The statuses of a successful Steam launch as the comments describe
      it: "launching", then what the polling monitor emits. */
  function SteamStatuses(ticks: seq<Tick>): (r: seq<LaunchStatus>)
    ensures r == [Launching] || r == [Launching, Running] || r == [Launching, Running, Stopped]
    ensures Running in r <==> exists k :: 0 <= k < |ticks| && ticks[k].poll == Poll(true)
  {
    InitialTrace(ticks);
    RunningReportedIffSeen(Initial, ticks);
    [Launching] + Run(Initial, ticks).emitted
  }
}
