/**
 * `ProcessManager`: launches one game at a time (a direct executable or a
 * Steam AppID), starts the game's auxiliary applications beside it, and
 * kills all of them on request.
 *
 * The manager is a class with the source's two fields. Every method is
 * proved against the value-level description in `Launching`: which requests
 * reach the OS, in which order, which exception escapes, and what the
 * manager and the handles hold afterwards. The late-attach watcher thread
 * `_launch_steam` starts is returned as a `WatchRequest` instead of being
 * started; `Watcher.AttachWatcher` is what that thread runs.
 */
module Manager {
  import opened Wrappers
  import opened Text
  import opened Platform
  import opened Detect
  import opened Handles
  import opened Watcher
  import opened Launching

  /** The watcher `_launch_steam` starts for a handle without a PID: its arguments `(proc, t0, kill_img, 90)`. */
  datatype WatchRequest = WatchRequest(proc: SteamTrackedProc, t0: int, hint: string, timeoutSeconds: int)

  const WatchTimeoutSeconds: int := 90

  /** What `launch` returns, with the watcher it started (if any). */
  datatype Launched = Launched(proc: GameProcess, watch: Option<WatchRequest>)

  /** `p.poll() is None` for an auxiliary application, given the live PIDs. */
  predicate Running(p: Popen, live: set<int>)
    reads p
  {
    p.returncode.None? && p.pid in live
  }

  /** The kill requests `_kill_extra_apps` sends: one `_kill_tree` per application still running, in order. */
  function ExtraKills(ps: seq<Popen>, live: set<int>): (r: seq<Request>)
    reads set p | p in ps
    ensures |r| <= |ps|
  {
    if ps == [] then []
    else
      var last := ps[|ps| - 1];
      ExtraKills(ps[..|ps| - 1], live) + (if Running(last, live) then [Request.KillTree(last.pid)] else [])
  }

  /** The kill requests for applications whose running flags are given. */
  function FlaggedKills(ps: seq<Popen>, running: seq<bool>): (r: seq<Request>)
    requires |running| == |ps|
    ensures |r| <= |ps|
  {
    if ps == [] then []
    else
      var n := |ps| - 1;
      FlaggedKills(ps[..n], running[..n]) + (if running[n] then [Request.KillTree(ps[n].pid)] else [])
  }

  /** The kill requests depend only on which applications are running. */
  lemma {:induction false} ExtraKillsFlagged(ps: seq<Popen>, live: set<int>, running: seq<bool>)
    requires |running| == |ps| && forall i :: 0 <= i < |ps| ==> running[i] == Running(ps[i], live)
    ensures ExtraKills(ps, live) == FlaggedKills(ps, running)
    decreases |ps|
  {
    if ps != [] {
      var n := |ps| - 1;
      ExtraKillsFlagged(ps[..n], live, running[..n]);
    }
  }

  /**
   * Every request `_kill_extra_apps` sends kills the tree of an application
   * that is still running, and an application that has ended is never
   * signalled; when none runs nothing is sent.
   */
  lemma {:induction false} ExtraKillsOnlyRunning(ps: seq<Popen>, live: set<int>)
    ensures forall k :: 0 <= k < |ExtraKills(ps, live)| ==>
      exists i :: 0 <= i < |ps| && Running(ps[i], live) && ExtraKills(ps, live)[k] == Request.KillTree(ps[i].pid)
    ensures (forall i :: 0 <= i < |ps| ==> !Running(ps[i], live)) ==> ExtraKills(ps, live) == []
    decreases |ps|
  {
    if ps != [] {
      var front := ps[..|ps| - 1];
      ExtraKillsOnlyRunning(front, live);
      forall k | 0 <= k < |ExtraKills(ps, live)|
        ensures exists i :: 0 <= i < |ps| && Running(ps[i], live) && ExtraKills(ps, live)[k] == Request.KillTree(ps[i].pid)
      {
        var last := ps[|ps| - 1];
        assert ExtraKills(ps, live) == ExtraKills(front, live) + (if Running(last, live) then [Request.KillTree(last.pid)] else []);
        if k < |ExtraKills(front, live)| {
          var i :| 0 <= i < |front| && Running(front[i], live) && ExtraKills(front, live)[k] == Request.KillTree(front[i].pid);
          assert ps[i] == front[i];
          assert ExtraKills(ps, live)[k] == ExtraKills(front, live)[k];
        } else {
          assert Running(last, live);
          assert ExtraKills(ps, live)[k] == Request.KillTree(ps[|ps| - 1].pid);
        }
      }
      if forall i :: 0 <= i < |ps| ==> !Running(ps[i], live) {
        forall i | 0 <= i < |front| ensures !Running(front[i], live) {
          assert front[i] == ps[i];
        }
        assert !Running(ps[|ps| - 1], live);
      }
    } else {
      assert |ExtraKills(ps, live)| == 0;
    }
  }

  /** Every running application is signalled: its kill request is among those sent. */
  lemma {:induction false} ExtraKillsEveryRunning(ps: seq<Popen>, live: set<int>, i: int)
    requires 0 <= i < |ps| && Running(ps[i], live)
    ensures Request.KillTree(ps[i].pid) in ExtraKills(ps, live)
    decreases |ps|
  {
    if i < |ps| - 1 {
      var front := ps[..|ps| - 1];
      assert front[i] == ps[i];
      ExtraKillsEveryRunning(front, live, i);
    }
  }

  /** The PIDs of the auxiliary applications, in order. */
  function Pids(ps: seq<Popen>): seq<int>
  {
    if ps == [] then [] else Pids(ps[..|ps| - 1]) + [ps[|ps| - 1].pid]
  }

  /** One more application adds its PID. */
  lemma PidsAppend(ps: seq<Popen>, p: Popen)
    ensures Pids(ps + [p]) == Pids(ps) + [p.pid]
  {
    assert (ps + [p])[..|ps|] == ps;
  }

  /** One more PID joins the set. */
  lemma SeqSetAppend(xs: seq<int>, x: int)
    ensures SeqSet(xs + [x]) == SeqSet(xs) + {x}
  {
  }

  /** One path of `_launch_extra_apps`, already stripped: start it when it exists, keeping the handle of a successful start. */
  method StartExtra(ghost b: Batch, ghost log0: seq<Request>, ghost live0: set<int>, app: string, os: Os) returns (p: Option<Popen>)
    requires os.log == log0 + b.sent && os.live == live0 + SeqSet(b.pids) && os.answers == b.rest
    modifies os`answers, os`log, os`live
    ensures var next := ExtraStep(b, app, os.files);
      && os.log == log0 + next.sent && os.live == live0 + SeqSet(next.pids) && os.answers == next.rest
      && next.pids == b.pids + (if p.Some? then [p.value.pid] else [])
    ensures p.Some? ==> fresh(p.value) && p.value.returncode == None
  {
    p := None;
    if app != [] && os.Exists(app) {
      var pid := os.Spawn([app], None);
      if pid.Some? {
        var started := new Popen(pid.value);
        p := Some(started);
        SeqSetAppend(b.pids, pid.value);
      }
    }
  }

  class ProcessManager {
    /** `_current_proc`, exposed read-only as `current_proc`. */
    var current: Option<GameProcess>
    /** `_extra_procs`. */
    var extras: seq<Popen>

    /** `ProcessManager()`: nothing running. */
    constructor ()
      ensures current == None && extras == []
    {
      current := None;
      extras := [];
    }

    /** The handle object behind the current process. */
    function CurrentFrame(): set<object>
      reads this
    {
      if current.Some? then {current.value.Inner()} else {}
    }

    /** The auxiliary applications' objects. */
    function ExtraFrame(): set<Popen>
      reads this
    {
      set p | p in extras
    }

    /** What terminating the current process sends. */
    function CurrentKills(): seq<Request>
      reads this, CurrentFrame()
    {
      if current.Some? then current.value.TerminateRequests() else []
    }

    /** `_launch_exe(game)`. */
    method LaunchExe(game: Game, os: Os) returns (r: Result<GameProcess, LaunchError>)
      modifies os`answers, os`log, os`live
      ensures var st := ExeStart(game, old(os.files), old(os.answers));
        && (r.Failure? <==> st.error.Some?)
        && (r.Failure? ==> r.error == st.error.value)
        && os.log == old(os.log) + st.sent
        && os.answers == st.rest
        && os.live == old(os.live) + st.started
      ensures r.Success? ==> && r.value.Direct? && fresh(r.value.popen)
                             && Some(r.value.popen.pid) == FirstAnswer(old(os.answers))
                             && r.value.popen.returncode == None
    {
      var exe := Strip(game.exePath);
      if exe == [] {
        return Failure(MissingExePath);
      }
      if !os.Exists(exe) {
        return Failure(ExeNotFound);
      }
      var cwd := if Strip(game.workingDir) != [] then Strip(game.workingDir) else ParentDir(exe);
      var cmd := [exe] + ExeArgs(game.args);
      var pid := os.Spawn(cmd, Some(cwd));
      if pid.None? {
        return Failure(ExeSpawnFailed);
      }
      var popen := new Popen(pid.value);
      r := Success(Direct(popen));
    }

    /** `_launch_steam_exe(app_id)`: the first existing steam.exe whose start works. */
    method LaunchSteamExe(appId: string, os: Os) returns (launched: bool)
      modifies os`answers, os`log, os`live
      ensures var p := SteamExeProbe(SteamPaths, appId, old(os.files), old(os.answers));
        && launched == p.launched
        && os.log == old(os.log) + p.sent
        && os.answers == p.rest
        && os.live == old(os.live) + OptSet(p.started)
    {
      launched := ProbePaths(SteamPaths, appId, os);
    }

    /** The loop of `_launch_steam_exe` over the candidate paths. */
    method ProbePaths(paths: seq<string>, appId: string, os: Os) returns (launched: bool)
      modifies os`answers, os`log, os`live
      ensures var p := SteamExeProbe(paths, appId, old(os.files), old(os.answers));
        && launched == p.launched
        && os.log == old(os.log) + p.sent
        && os.answers == p.rest
        && os.live == old(os.live) + OptSet(p.started)
    {
      ghost var sent: seq<Request> := [];
      var k := 0;
      while k < |paths|
        invariant 0 <= k <= |paths|
        invariant os.log == old(os.log) + sent
        invariant os.live == old(os.live)
        invariant var q := SteamExeProbe(paths[k..], appId, os.files, os.answers);
          SteamExeProbe(paths, appId, old(os.files), old(os.answers)) == q.(sent := sent + q.sent)
      {
        assert paths[k..][0] == paths[k] && paths[k..][1..] == paths[k + 1..];
        ghost var q := SteamExeProbe(paths[k..], appId, os.files, os.answers);
        if os.Exists(paths[k]) {
          ghost var a := os.NextAnswer();
          var pid := os.Spawn([paths[k], "-applaunch", appId], None);
          sent := sent + [Applaunch(paths[k], appId)];
          if pid.Some? {
            assert q == Probe(true, [Applaunch(paths[k], appId)], os.answers, a);
            return true;
          }
          ghost var q' := SteamExeProbe(paths[k + 1..], appId, os.files, os.answers);
          assert q == q'.(sent := [Applaunch(paths[k], appId)] + q'.sent);
        } else {
          assert q == SteamExeProbe(paths[k + 1..], appId, os.files, os.answers);
        }
        k := k + 1;
      }
      return false;
    }

    /** `_launch_steam_protocol(app_id)`: opens `steam://rungameid/<app_id>`. */
    method LaunchSteamProtocol(appId: string, os: Os) returns (launched: bool)
      modifies os`log
      ensures launched == os.uriHandler
      ensures os.log == old(os.log) + [OpenUri(SteamUri(appId))]
    {
      launched := os.StartFile(SteamUri(appId));
    }

    /** `_launch_steam(game)`: launch, then build the handle from what detection found. */
    method LaunchSteam(game: Game, env: SteamEnv, os: Os) returns (r: Result<Launched, LaunchError>)
      modifies os`answers, os`log, os`live
      ensures var st := SteamStart(game, old(os.files), old(os.answers), old(os.uriHandler));
        && (r.Failure? <==> st.error.Some?)
        && (r.Failure? ==> r.error == st.error.value)
        && os.log == old(os.log) + st.sent
        && os.answers == st.rest
        && os.live == old(os.live) + st.started
      ensures r.Success? ==>
        var t := SteamTarget(game, env);
        && r.value.proc.Steam? && fresh(r.value.proc.tracked)
        && r.value.proc.tracked.State() == Created(t.0, t.1, os.live)
        && r.value.watch == (if r.value.proc.tracked.pid.None? then Some(WatchRequest(r.value.proc.tracked, env.t0, t.2, WatchTimeoutSeconds)) else None)
    {
      var appId := Strip(game.steamAppId);
      if appId == [] {
        return Failure(MissingAppId);
      }
      var killImg := Lower(Strip(game.steamProcName));
      var baseline := TasklistImages(env.baselineOut);
      var launched := StartSteamApp(appId, os);
      if !launched {
        return Failure(SteamNotLaunched);
      }
      var proc, watch := SteamHandle(game, env, killImg, baseline, os);
      r := Success(Launched(Steam(proc), watch));
    }

    /** The Exe attempt, then the protocol fallback; true when either started Steam. */
    method StartSteamApp(appId: string, os: Os) returns (launched: bool)
      modifies os`answers, os`log, os`live
      ensures var st := SteamAppStart(appId, old(os.files), old(os.answers), old(os.uriHandler));
        && (launched <==> st.error.None?)
        && os.log == old(os.log) + st.sent
        && os.answers == st.rest
        && os.live == old(os.live) + st.started
    {
      launched := LaunchSteamExe(appId, os);
      SteamExeProbeSends(SteamPaths, appId, old(os.files), old(os.answers));
      if !launched {
        launched := LaunchSteamProtocol(appId, os);
      }
    }

    /** After a successful launch: detect the game and build its handle, with the watcher to start when it has no PID. */
    method SteamHandle(game: Game, env: SteamEnv, killImg: string, baseline: set<string>, os: Os)
      returns (proc: SteamTrackedProc, watch: Option<WatchRequest>)
      requires killImg == Lower(Strip(game.steamProcName)) && baseline == ImageSet(env.baselineOut)
      ensures var t := SteamTarget(game, env);
        && fresh(proc) && proc.State() == Created(t.0, t.1, os.live)
        && watch == (if proc.pid.None? then Some(WatchRequest(proc, env.t0, t.2, WatchTimeoutSeconds)) else None)
    {
      var img := killImg;
      var pid, detected := DetectPsutil(env.psutilPresent, env.t0, env.psutilCycles);
      if pid != 0 {
        proc := new SteamTrackedProc(pid, HintOr(img, detected), os);
      } else {
        if img == "" {
          img := DetectTasklist(baseline, env.tasklistOutputs);
        }
        proc := new SteamTrackedProc(0, img, os);
      }
      watch := if proc.pid.None? then Some(WatchRequest(proc, env.t0, img, WatchTimeoutSeconds)) else None;
    }

    /** `_launch_extra_apps(game)`: forget the previous list, then start every usable path. */
    method LaunchExtraApps(game: Game, os: Os)
      modifies this`extras, os`answers, os`log, os`live
      ensures var b := ExtraRun(game.extraApps, old(os.files), old(os.answers));
        && Pids(extras) == b.pids
        && os.log == old(os.log) + b.sent
        && os.answers == b.rest
        && os.live == old(os.live) + SeqSet(b.pids)
      ensures forall p :: p in extras ==> fresh(p) && p.returncode == None
    {
      extras := [];
      var apps := game.extraApps;
      ghost var files, answers, log0, live0 := os.files, os.answers, os.log, os.live;
      ghost var b := ExtraRun([], files, answers);
      var k := 0;
      while k < |apps|
        invariant 0 <= k <= |apps|
        invariant os.files == files
        invariant b == ExtraRun(apps[..k], files, answers)
        invariant os.log == log0 + b.sent && os.live == live0 + SeqSet(b.pids) && os.answers == b.rest
        invariant Pids(extras) == b.pids
        invariant forall p :: p in extras ==> fresh(p) && p.returncode == None
      {
        ExtraRunStep(apps, files, answers, k);
        var app := Strip(apps[k]);
        var p := StartExtra(b, log0, live0, app, os);
        if p.Some? {
          PidsAppend(extras, p.value);
          extras := extras + [p.value];
        }
        b := ExtraStep(b, app, files);
        k := k + 1;
      }
      assert apps[..k] == apps;
    }

    /**
     * `launch(game)`: starts the game (an exception leaves the manager as it
     * was), records it as the current process, then starts the auxiliary
     * applications.
     */
    method Launch(game: Game, env: SteamEnv, os: Os) returns (r: Result<Launched, LaunchError>)
      modifies this, os`answers, os`log, os`live
      ensures var st := StartOf(game, old(os.files), old(os.answers), old(os.uriHandler));
        && (r.Failure? <==> st.error.Some?)
        && (r.Failure? ==> && r.error == st.error.value
                           && current == old(current) && extras == old(extras)
                           && os.log == old(os.log) + st.sent
                           && os.answers == st.rest
                           && os.live == old(os.live) + st.started)
      ensures var st := StartOf(game, old(os.files), old(os.answers), old(os.uriHandler));
        var b := ExtraRun(game.extraApps, old(os.files), st.rest);
        r.Success? ==> && current == Some(r.value.proc)
                       && Pids(extras) == b.pids
                       && os.log == old(os.log) + st.sent + b.sent
                       && os.answers == b.rest
                       && os.live == old(os.live) + st.started + SeqSet(b.pids)
      ensures r.Success? && !game.isSteam ==>
        && r.value.proc.Direct? && Some(r.value.proc.popen.pid) == FirstAnswer(old(os.answers))
        && r.value.watch == None
      ensures var st := StartOf(game, old(os.files), old(os.answers), old(os.uriHandler));
        var t := SteamTarget(game, env);
        r.Success? && game.isSteam ==>
          && r.value.proc.Steam?
          && r.value.proc.tracked.State() == Created(t.0, t.1, old(os.live) + st.started)
          && r.value.watch == (if r.value.proc.tracked.pid.None? then Some(WatchRequest(r.value.proc.tracked, env.t0, t.2, WatchTimeoutSeconds)) else None)
      ensures r.Success? ==> fresh(r.value.proc.Inner()) && forall p :: p in extras ==> fresh(p) && p.returncode == None
    {
      var proc: GameProcess;
      var watch: Option<WatchRequest> := None;
      if game.isSteam {
        var res := LaunchSteam(game, env, os);
        if res.Failure? {
          return Failure(res.error);
        }
        proc := res.value.proc;
        watch := res.value.watch;
      } else {
        var res := LaunchExe(game, os);
        if res.Failure? {
          return Failure(res.error);
        }
        proc := res.value;
      }
      current := Some(proc);
      LaunchExtraApps(game, os);
      r := Success(Launched(proc, watch));
    }

    /** `_kill_extra_apps()`: kill the tree of every application still running, then forget them all. */
    method KillExtraApps(os: Os)
      modifies this`extras, ExtraFrame(), os`log
      ensures extras == []
      ensures os.log == old(os.log) + old(ExtraKills(extras, os.live))
      ensures forall p :: p in old(extras) ==> p.returncode == old(p.Status(os))
    {
      var i := 0;
      while i < |extras|
        invariant 0 <= i <= |extras|
        invariant extras == old(extras)
        invariant os.log == old(os.log) + old(ExtraKills(extras[..i], os.live))
        invariant forall q :: q in extras ==> q.Status(os) == old(q.Status(os))
        invariant forall j :: 0 <= j < i ==> extras[j].returncode == old(extras[j].Status(os))
      {
        var p := extras[i];
        assert old(ExtraKills(extras[..i + 1], os.live)) == old(ExtraKills(extras[..i], os.live)) + old(if Running(p, os.live) then [Request.KillTree(p.pid)] else []) by {
          assert extras[..i + 1][..i] == extras[..i];
        }
        var code := p.Poll(os);
        if code.None? {
          os.KillTree(p.pid);
        }
        i := i + 1;
      }
      assert extras[..i] == extras;
      extras := [];
    }

    /** The first step of `kill_current()`: terminate the current process, if any, and forget it. */
    method DropCurrent(os: Os)
      modifies this`current, CurrentFrame(), os`log
      ensures current == None
      ensures os.log == old(os.log) + old(CurrentKills())
      ensures old(current).Some? && old(current).value.Steam? ==>
        old(current).value.tracked.State() == Terminated(old(current.value.tracked.State()))
      ensures old(current).Some? && old(current).value.Direct? ==>
        old(current).value.popen.Status(os) == old(current.value.popen.Status(os))
      ensures forall p :: p in extras ==> p.Status(os) == old(p.Status(os))
      ensures ExtraKills(extras, os.live) == old(ExtraKills(extras, os.live))
    {
      ghost var ps, live := extras, os.live;
      ghost var running := seq(|ps|, i requires 0 <= i < |ps| reads ps => Running(ps[i], live));
      ExtraKillsFlagged(ps, live, running);
      if current.Some? {
        current.value.Terminate(os);
        current := None;
      }
      // Terminating changes no status that `poll()` reports, so the same extras are running.
      assert forall p :: p in ps ==> p.Status(os) == old(p.Status(os));
      ExtraKillsFlagged(ps, live, running);
    }

    /** `kill_current()`: terminate the current process if there is one, then always the auxiliary applications. */
    method KillCurrent(os: Os)
      modifies this, CurrentFrame(), ExtraFrame(), os`log
      ensures current == None && extras == []
      ensures os.log == old(os.log) + old(CurrentKills()) + old(ExtraKills(extras, os.live))
      ensures old(current).Some? && old(current).value.Steam? ==>
        old(current).value.tracked.State() == Terminated(old(current.value.tracked.State()))
      ensures old(current).Some? && old(current).value.Direct? ==>
        old(current).value.popen.Status(os) == old(current.value.popen.Status(os))
      ensures forall p :: p in old(extras) ==> p.returncode == old(p.Status(os))
    {
      var cur := current;
      DropCurrent(os);
      ghost var status := if cur.Some? && cur.value.Direct? then cur.value.popen.Status(os) else None;
      KillExtraApps(os);
      assert cur.Some? && cur.value.Direct? ==> cur.value.popen.Status(os) == status;
    }

    /** `is_running()`: there is a current process and polling it reports no exit status. */
    method IsRunning(os: Os) returns (running: bool)
      modifies CurrentFrame()
      ensures running <==> old(current).Some? && old(current.value.Status(os)).None?
      ensures current.Some? ==> current.value.Status(os) == old(current.value.Status(os))
      ensures current.Some? && current.value.Steam? ==>
        current.value.tracked.State() == PollState(old(current.value.tracked.State()), os.live)
      ensures current.Some? && current.value.Direct? ==>
        current.value.popen.returncode == old(current.value.Status(os))
    {
      if current.None? {
        return false;
      }
      var code := current.value.Poll(os);
      if current.value.Steam? {
        PollTwice(old(current.value.tracked.State()), os.live);
      }
      running := code.None?;
    }
  }
}
