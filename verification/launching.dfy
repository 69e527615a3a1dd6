/**
 * The decisions `ProcessManager` takes before and while it starts a game,
 * as values: the command line and working directory of a direct start, the
 * `steam.exe -applaunch` probe and its `steam://` fallback, the target the
 * Steam handle is built from, and the auxiliary applications started with a
 * game. `Manager.ProcessManager` carries them out against the `Os` object
 * and is proved to send exactly what these functions say.
 *
 * Pending process-start answers are a sequence: `AnswerAt(answers, k)` is
 * what the k-th coming start gets (a failure once the answers run out).
 */
module Launching {
  import opened Wrappers
  import opened Text
  import opened Platform
  import opened Detect
  import opened Handles
  import opened Watcher

  /** The fields of `Game` the launcher reads. */
  datatype Game = Game(
    name: string,
    exePath: string,
    args: string,
    workingDir: string,
    isSteam: bool,
    steamAppId: string,
    steamProcName: string,
    extraApps: seq<string>)

  /** The exceptions `launch` lets escape. */
  datatype LaunchError =
    | MissingExePath    // ValueError: blank exe_path
    | ExeNotFound       // FileNotFoundError: exe_path does not exist
    | ExeSpawnFailed    // RuntimeError: Popen of the executable raised
    | MissingAppId      // ValueError: blank steam_app_id
    | SteamNotLaunched  // RuntimeError: neither steam.exe nor the steam:// protocol started it

  // ===========================================================================
  // Pending answers
  // ===========================================================================

  /** The answer the k-th coming process start gets. */
  function AnswerAt(answers: seq<Option<int>>, k: nat): Option<int>
  {
    if k < |answers| then answers[k] else None
  }

  /** The answers left after `n` process starts. */
  function Drop(answers: seq<Option<int>>, n: nat): seq<Option<int>>
  {
    if n <= |answers| then answers[n..] else []
  }

  /** Taking one answer shifts the pending ones by one. */
  lemma AnswersShift(answers: seq<Option<int>>, n: nat)
    ensures FirstAnswer(answers) == AnswerAt(answers, 0)
    ensures AnswerAt(LaterAnswers(answers), n) == AnswerAt(answers, n + 1)
    ensures Drop(LaterAnswers(answers), n) == Drop(answers, n + 1)
  {
  }

  /** The PIDs among the answers, in order. */
  function Successes(xs: seq<Option<int>>): seq<int>
  {
    if xs == [] then []
    else
      var x := xs[|xs| - 1];
      Successes(xs[..|xs| - 1]) + (if x.Some? then [x.value] else [])
  }

  /** The elements of a sequence of PIDs. */
  function SeqSet(xs: seq<int>): set<int>
  {
    set x | x in xs
  }

  /** The PID of a start, as a set. */
  function OptSet(o: Option<int>): set<int>
  {
    if o.Some? then {o.value} else {}
  }

  // ===========================================================================
  // _launch_exe: command line and working directory
  // ===========================================================================

  /** `args.strip().split() if args.strip() else []`. */
  function ExeArgs(args: string): (r: seq<string>)
    ensures forall i :: 0 <= i < |r| ==> r[i] != [] && NoneIn(r[i], WhiteSpace)
  {
    if Strip(args) != [] then Words(Strip(args)) else []
  }

  /** The arguments keep every non-whitespace character of `args`, in order. */
  lemma ExeArgsKeepText(args: string)
    ensures Concat(ExeArgs(args)) == RemoveSpace(args)
  {
    var pre, post := StripCharsDecomposes(args, WhiteSpace);
    var st := Strip(args);
    assert args == pre + st + post;
    RemoveSpaceAppend(pre + st, post);
    RemoveSpaceAppend(pre, st);
    RemoveSpaceOfBlank(pre);
    RemoveSpaceOfBlank(post);
    WordsKeepText(st);
  }

  /**
   * Stripping first changes nothing: `args.strip().split()` is `args.split()`,
   * so the arguments are the maximal runs of non-whitespace of `args`
   * (`WordsGaps`, `WordsOfInterleave`).
   */
  lemma ExeArgsAreWords(args: string)
    ensures ExeArgs(args) == Words(args)
  {
    var pre, post := StripCharsDecomposes(args, WhiteSpace);
    WordsOfSurrounded(pre, Strip(args), post);
  }

  /** Arguments joined by single spaces are split back into the same arguments. */
  lemma ExeArgsOfJoin(ws: seq<string>)
    requires forall i :: 0 <= i < |ws| ==> ws[i] != [] && NoneIn(ws[i], WhiteSpace)
    ensures ExeArgs(Join(ws, ' ')) == ws
  {
    if ws != [] {
      StripOfJoin(ws);
      WordsOfJoin(ws);
    }
  }

  /** Words joined by single spaces have no surrounding whitespace to strip. */
  lemma StripOfJoin(ws: seq<string>)
    requires ws != []
    requires forall i :: 0 <= i < |ws| ==> ws[i] != [] && NoneIn(ws[i], WhiteSpace)
    ensures Join(ws, ' ') != [] && Strip(Join(ws, ' ')) == Join(ws, ' ')
  {
    var s := Join(ws, ' ');
    var first, last := ws[0], ws[|ws| - 1];
    JoinStart(ws, ' ');
    JoinEnd(ws, ' ');
    assert first[0] !in WhiteSpace;
    assert last[|last| - 1] !in WhiteSpace;
    EndsWithLast(s, last);
    EdgesUnstripped(s);
  }

  predicate IsPathSep(c: char)
  {
    c == '\\' || c == '/'
  }

  /** The index of the last path separator of `p`, or -1 when it has none. */
  function LastSep(p: string): (i: int)
    ensures -1 <= i < |p|
    ensures 0 <= i ==> IsPathSep(p[i])
    ensures forall j :: i < j < |p| ==> !IsPathSep(p[j])
  {
    if p == [] then -1
    else if IsPathSep(p[|p| - 1]) then |p| - 1
    else LastSep(p[..|p| - 1])
  }

  /** `str(Path(p).parent)`: the text before the last separator, "." for a bare file name. */
  function ParentDir(p: string): string
  {
    var i := LastSep(p);
    if i < 0 then "." else p[..i]
  }

  /** The parent of `dir\name` is `dir`, and a bare name lives in ".". */
  lemma ParentDirOf(dir: string, name: string)
    requires forall j :: 0 <= j < |name| ==> !IsPathSep(name[j])
    ensures ParentDir(dir + ['\\'] + name) == dir
    ensures ParentDir(name) == "."
  {
    var p := dir + ['\\'] + name;
    assert IsPathSep(p[|dir|]);
    assert forall j :: |dir| < j < |p| ==> p[j] == name[j - |dir| - 1];
    assert p[..|dir|] == dir;
  }

  /** The working directory: `working_dir.strip() or str(exe_path.parent)`, the parent taken from the unnormalised path text. */
  function ExeCwd(game: Game, exe: string): string
  {
    if Strip(game.workingDir) != [] then Strip(game.workingDir) else ParentDir(exe)
  }

  /**
   * `[str(exe_path)] + args`, with the path text as configured (stripped):
   * the separator and `.`-segment normalisation `pathlib` applies is not
   * modelled.
   */
  function ExeCommand(game: Game): seq<string>
  {
    [Strip(game.exePath)] + ExeArgs(game.args)
  }

  /** The command line starts with the executable and continues with its arguments. */
  lemma ExeCommandShape(game: Game)
    ensures var cmd := ExeCommand(game);
      && |cmd| >= 1 && cmd[0] == Strip(game.exePath)
      && Concat(cmd[1..]) == RemoveSpace(game.args)
      && forall i :: 1 <= i < |cmd| ==> cmd[i] != [] && NoneIn(cmd[i], WhiteSpace)
  {
    ExeArgsKeepText(game.args);
    assert ExeCommand(game)[1..] == ExeArgs(game.args);
  }

  // ===========================================================================
  // _launch_steam_exe and _launch_steam_protocol
  // ===========================================================================

  const SteamPaths: seq<string> := ["C:\\Program Files (x86)\\Steam\\steam.exe", "C:\\Program Files\\Steam\\steam.exe"]

  /** The `steam://` URI the protocol fallback opens. */
  function SteamUri(appId: string): string
  {
    "steam://rungameid/" + appId
  }

  /** `[path, "-applaunch", app_id]`, started without a working directory. */
  function Applaunch(path: string, appId: string): Request
  {
    Request.Spawn([path, "-applaunch", appId], None)
  }

  /** The starts the probe would send if none of them worked: one per existing path, in order. */
  function Tries(paths: seq<string>, appId: string, files: set<string>): seq<Request>
  {
    if paths == [] then []
    else (if paths[0] in files then [Applaunch(paths[0], appId)] else []) + Tries(paths[1..], appId, files)
  }

  /** What the steam.exe probe did: whether it launched, what it sent, the answers left, and the PID it started. */
  datatype Probe = Probe(launched: bool, sent: seq<Request>, rest: seq<Option<int>>, started: Option<int>)

  /** `_launch_steam_exe(app_id)` over the candidate paths: launched exactly when a PID started. */
  function SteamExeProbe(paths: seq<string>, appId: string, files: set<string>, answers: seq<Option<int>>): (p: Probe)
    ensures p.launched <==> p.started.Some?
  {
    if paths == [] then Probe(false, [], answers, None)
    else if paths[0] !in files then SteamExeProbe(paths[1..], appId, files, answers)
    else
      var a := FirstAnswer(answers);
      if a.Some? then Probe(true, [Applaunch(paths[0], appId)], LaterAnswers(answers), a)
      else
        var p := SteamExeProbe(paths[1..], appId, files, LaterAnswers(answers));
        p.(sent := [Applaunch(paths[0], appId)] + p.sent)
  }

  /**
   * The probe tries the existing paths in order and stops at the first start
   * that works: it sends a prefix of `Tries`, all of it when nothing
   * started, and it launched exactly when it started a PID.
   */
  lemma {:induction false} SteamExeProbeSends(paths: seq<string>, appId: string, files: set<string>, answers: seq<Option<int>>)
    ensures var p := SteamExeProbe(paths, appId, files, answers);
      var tries := Tries(paths, appId, files);
      && (p.launched <==> p.started.Some?)
      && |p.sent| <= |tries| && p.sent == tries[..|p.sent|]
      && p.rest == Drop(answers, |p.sent|)
      && (!p.launched ==> p.sent == tries)
      && (p.launched ==> p.sent != [])
    decreases |paths|
  {
    if paths != [] {
      var p := SteamExeProbe(paths, appId, files, answers);
      var tries := Tries(paths, appId, files);
      var a := Applaunch(paths[0], appId);
      if paths[0] !in files {
        SteamExeProbeSends(paths[1..], appId, files, answers);
        assert p == SteamExeProbe(paths[1..], appId, files, answers);
        assert tries == Tries(paths[1..], appId, files);
      } else {
        var qt := Tries(paths[1..], appId, files);
        assert tries == [a] + qt;
        if FirstAnswer(answers).None? {
          var later := LaterAnswers(answers);
          SteamExeProbeSends(paths[1..], appId, files, later);
          var q := SteamExeProbe(paths[1..], appId, files, later);
          assert p == q.(sent := [a] + q.sent);
          AnswersShift(answers, |q.sent|);
          assert p.sent == tries[..|p.sent|] by {
            assert q.sent == qt[..|q.sent|];
          }
        } else {
          assert p == Probe(true, [a], LaterAnswers(answers), FirstAnswer(answers));
          assert p.sent == tries[..1];
        }
      }
    }
  }

  /**
   * Every start the probe sent failed except, when it launched, the last
   * one, whose answer is the PID it reports.
   */
  lemma {:induction false} SteamExeProbeAnswers(paths: seq<string>, appId: string, files: set<string>, answers: seq<Option<int>>)
    ensures var p := SteamExeProbe(paths, appId, files, answers);
      && (forall k :: 0 <= k < |p.sent| && (p.launched ==> k < |p.sent| - 1) ==> AnswerAt(answers, k).None?)
      && (p.launched ==> |p.sent| >= 1 && p.started == AnswerAt(answers, |p.sent| - 1))
    decreases |paths|
  {
    if paths != [] {
      AnswersShift(answers, 0);
      if paths[0] !in files {
        SteamExeProbeAnswers(paths[1..], appId, files, answers);
      } else if FirstAnswer(answers).None? {
        var later := LaterAnswers(answers);
        SteamExeProbeAnswers(paths[1..], appId, files, later);
        var q := SteamExeProbe(paths[1..], appId, files, later);
        var p := SteamExeProbe(paths, appId, files, answers);
        assert p.sent == [Applaunch(paths[0], appId)] + q.sent && p.launched == q.launched && p.started == q.started;
        forall k | 0 <= k < |p.sent| && (p.launched ==> k < |p.sent| - 1)
          ensures AnswerAt(answers, k).None?
        {
          if k > 0 {
            AnswersShift(answers, k - 1);
          }
        }
        if p.launched {
          AnswersShift(answers, |q.sent| - 1);
        }
      }
    }
  }

  /** With no steam.exe on disk the probe sends nothing and fails. */
  lemma SteamExeProbeNoSteam(paths: seq<string>, appId: string, files: set<string>, answers: seq<Option<int>>)
    requires forall i :: 0 <= i < |paths| ==> paths[i] !in files
    ensures SteamExeProbe(paths, appId, files, answers) == Probe(false, [], answers, None)
  {
    if paths != [] {
      SteamExeProbeNoSteam(paths[1..], appId, files, answers);
    }
  }

  // ===========================================================================
  // How the game itself is started
  // ===========================================================================

  /** What starting the game did: the exception raised (if any), the requests sent, the answers left, the PIDs started. */
  datatype GameStart = GameStart(error: Option<LaunchError>, sent: seq<Request>, rest: seq<Option<int>>, started: set<int>)

  /**
   * `_launch_exe(game)`, validation order included: at most one request is
   * sent, no answer is consumed without one, and the start succeeds
   * exactly when a PID was started.
   */
  function ExeStart(game: Game, files: set<string>, answers: seq<Option<int>>): (st: GameStart)
    ensures |st.sent| <= 1 && (st.sent == [] ==> st.rest == answers && st.error.Some?)
    ensures st.error.None? <==> st.started != {}
  {
    var exe := Strip(game.exePath);
    if exe == [] then GameStart(Some(MissingExePath), [], answers, {})
    else if exe !in files then GameStart(Some(ExeNotFound), [], answers, {})
    else
      var a := FirstAnswer(answers);
      GameStart(if a.Some? then None else Some(ExeSpawnFailed),
                [Request.Spawn(ExeCommand(game), Some(ExeCwd(game, exe)))],
                LaterAnswers(answers), OptSet(a))
  }

  /**
   * The launching part of `_launch_steam(game)`: steam.exe first, the
   * protocol only if that failed. The AppID error is raised exactly for a
   * blank AppID, and a started PID always means success.
   */
  function SteamStart(game: Game, files: set<string>, answers: seq<Option<int>>, uriHandler: bool): (st: GameStart)
    ensures st.error == Some(MissingAppId) <==> Strip(game.steamAppId) == []
    ensures st.started != {} ==> st.error.None?
    ensures |st.started| <= 1
  {
    var appId := Strip(game.steamAppId);
    if appId == [] then GameStart(Some(MissingAppId), [], answers, {})
    else SteamAppStart(appId, files, answers, uriHandler)
  }

  /** `_launch_steam_exe(app_id) or _launch_steam_protocol(app_id)`, raising when both fail. */
  function SteamAppStart(appId: string, files: set<string>, answers: seq<Option<int>>, uriHandler: bool): GameStart
  {
    var p := SteamExeProbe(SteamPaths, appId, files, answers);
    if p.launched then GameStart(None, p.sent, p.rest, OptSet(p.started))
    else GameStart(if uriHandler then None else Some(SteamNotLaunched),
                   p.sent + [OpenUri(SteamUri(appId))], p.rest, {})
  }

  /** The first half of `launch(game)`: EXE or Steam according to `is_steam`. */
  function StartOf(game: Game, files: set<string>, answers: seq<Option<int>>, uriHandler: bool): GameStart
  {
    if game.isSteam then SteamStart(game, files, answers, uriHandler) else ExeStart(game, files, answers)
  }

  /**
   * A direct start validates before it starts anything: a blank path raises
   * ValueError and a missing one FileNotFoundError, neither sending a
   * request; otherwise exactly one start is sent, with the command line and
   * working directory, and it fails only when that start fails.
   */
  lemma ExeStartValidates(game: Game, files: set<string>, answers: seq<Option<int>>)
    ensures var st := ExeStart(game, files, answers);
      var exe := Strip(game.exePath);
      && (exe == [] ==> st == GameStart(Some(MissingExePath), [], answers, {}))
      && (exe != [] && exe !in files ==> st == GameStart(Some(ExeNotFound), [], answers, {}))
      && (exe != [] && exe in files ==>
            && st.sent == [Request.Spawn([exe] + ExeArgs(game.args), Some(ExeCwd(game, exe)))]
            && (st.error.None? <==> FirstAnswer(answers).Some?)
            && (st.error.Some? ==> st.error == Some(ExeSpawnFailed) && st.started == {})
            && st.rest == LaterAnswers(answers))
  {
  }

  /**
   * A Steam start with a blank AppID raises ValueError and sends nothing.
   * Otherwise the `steam://` protocol is tried exactly when steam.exe did not
   * launch, and RuntimeError is raised exactly when both failed.
   */
  lemma SteamStartValidates(game: Game, files: set<string>, answers: seq<Option<int>>, uriHandler: bool)
    ensures var st := SteamStart(game, files, answers, uriHandler);
      var appId := Strip(game.steamAppId);
      var p := SteamExeProbe(SteamPaths, appId, files, answers);
      && (appId == [] ==> st == GameStart(Some(MissingAppId), [], answers, {}))
      && (appId != [] ==>
            && (OpenUri(SteamUri(appId)) in st.sent <==> !p.launched)
            && (st.error == Some(SteamNotLaunched) <==> !p.launched && !uriHandler)
            && (st.error.None? <==> p.launched || uriHandler)
            && st.sent[..|p.sent|] == p.sent)
  {
    var appId := Strip(game.steamAppId);
    if appId != [] {
      var p := SteamExeProbe(SteamPaths, appId, files, answers);
      SteamExeProbeSends(SteamPaths, appId, files, answers);
      if p.launched {
        forall k | 0 <= k < |p.sent| ensures p.sent[k].Spawn? {
          TriesAreApplaunches(SteamPaths, appId, files, k);
        }
      }
    }
  }

  /** Every request of `Tries` is a process start. */
  lemma {:induction false} TriesAreApplaunches(paths: seq<string>, appId: string, files: set<string>, k: int)
    requires 0 <= k < |Tries(paths, appId, files)|
    ensures Tries(paths, appId, files)[k].Spawn?
    decreases |paths|
  {
    if paths[0] in files && k == 0 {
    } else if paths[0] in files {
      TriesAreApplaunches(paths[1..], appId, files, k - 1);
    } else {
      TriesAreApplaunches(paths[1..], appId, files, k);
    }
  }

  /** Whatever the game kind, a failed validation (as opposed to a failed start) sends nothing and consumes nothing. */
  lemma ValidationErrorsSendNothing(game: Game, files: set<string>, answers: seq<Option<int>>, uriHandler: bool)
    ensures var st := StartOf(game, files, answers, uriHandler);
      st.error in {Some(MissingExePath), Some(ExeNotFound), Some(MissingAppId)} ==>
        st.sent == [] && st.rest == answers && st.started == {}
  {
    var st := StartOf(game, files, answers, uriHandler);
    if game.isSteam && Strip(game.steamAppId) != [] {
      var p := SteamExeProbe(SteamPaths, Strip(game.steamAppId), files, answers);
      assert st.error.None? || st.error == Some(SteamNotLaunched);
    }
  }

  // ===========================================================================
  // The Steam handle's target
  // ===========================================================================

  /** What `_launch_steam` needs from the world after the launch: detection results. */
  datatype SteamEnv = SteamEnv(
    t0: int,                              // time.time() before the launch, in ms
    psutilPresent: bool,
    baselineOut: Option<string>,          // tasklist output before the launch (None: tasklist failed)
    psutilCycles: seq<seq<ProcInfo>>,     // what each psutil scan cycle sees
    tasklistOutputs: seq<Option<string>>) // what each tasklist poll of the diff fallback sees

  /**
   * The PID and image `_launch_steam` builds the handle from, and the hint
   * it hands the late-attach watcher: a psutil hit gives its PID (with
   * `kill_img or detected_img`); otherwise PID 0 with `kill_img`, falling
   * back to the tasklist diff when no process name is configured.
   */
  function SteamTarget(game: Game, env: SteamEnv): (t: (int, string, string))
    ensures t.0 == 0 ==> t.1 == t.2
    ensures t.2 != "" ==> t.1 == t.2
  {
    var killImg := Lower(Strip(game.steamProcName));
    var found := PsutilDetect(env.psutilPresent, env.t0, env.psutilCycles);
    if found.0 != 0 then (found.0, HintOr(killImg, found.1), killImg)
    else
      var img := if killImg != "" then killImg else TasklistWalk(ImageSet(env.baselineOut), env.tasklistOutputs);
      (0, img, img)
  }

  /**
   * A configured process name always wins as image and hint; without one a
   * psutil hit supplies the image and the hint stays empty; when psutil
   * finds nothing the handle has PID 0 and the image is the tasklist diff's
   * pick (or empty).
   */
  lemma SteamTargetChoice(game: Game, env: SteamEnv)
    ensures var t := SteamTarget(game, env);
      var killImg := Lower(Strip(game.steamProcName));
      var found := PsutilDetect(env.psutilPresent, env.t0, env.psutilCycles);
      && (killImg != "" ==> t.1 == killImg && t.2 == killImg)
      && (found.0 != 0 ==> t.0 == found.0 && (killImg == "" ==> t.1 == found.1 && t.2 == ""))
      && (found.0 == 0 ==> t.0 == 0 && t.1 == t.2)
      && (found.0 == 0 && killImg == "" ==> t.1 == TasklistWalk(ImageSet(env.baselineOut), env.tasklistOutputs))
      && NoUpper(t.2)
  {
    var killImg := Lower(Strip(game.steamProcName));
    var found := PsutilDetect(env.psutilPresent, env.t0, env.psutilCycles);
    if found.0 == 0 && killImg == "" {
      var baseline, outs := ImageSet(env.baselineOut), env.tasklistOutputs;
      var w := TasklistWalk(baseline, outs);
      var c := TasklistWalkFirstPick(baseline, outs);
      if w != "" {
        DiffPickSound(baseline, ImageSet(outs[c]));
        ImageSetClean(outs[c], w);
      }
    }
  }

  /** Without psutil the handle never starts with a PID, so the watcher is always started. */
  lemma SteamTargetWithoutPsutil(game: Game, env: SteamEnv, live: set<int>)
    requires !env.psutilPresent
    ensures SteamTarget(game, env).0 == 0
    ensures Created(SteamTarget(game, env).0, SteamTarget(game, env).1, live).pid.None?
  {
  }

  // ===========================================================================
  // _launch_extra_apps
  // ===========================================================================

  /** What starting the auxiliary applications did: requests sent, PIDs started, answers left. */
  datatype Batch = Batch(sent: seq<Request>, pids: seq<int>, rest: seq<Option<int>>)

  /** One path of `_launch_extra_apps`, already stripped: a blank or missing path is skipped, otherwise it is started with the next pending answer. */
  function ExtraStep(b: Batch, app: string, files: set<string>): Batch
  {
    if app == [] || app !in files then b
    else
      var a := FirstAnswer(b.rest);
      Batch(b.sent + [Request.Spawn([app], None)], b.pids + (if a.Some? then [a.value] else []), LaterAnswers(b.rest))
  }

  /** `_launch_extra_apps(game)`: blank and missing paths are skipped, failed starts are dropped. */
  function ExtraRun(apps: seq<string>, files: set<string>, answers: seq<Option<int>>): Batch
  {
    if apps == [] then Batch([], [], answers)
    else ExtraStep(ExtraRun(apps[..|apps| - 1], files, answers), Strip(apps[|apps| - 1]), files)
  }

  /** At most one start per listed path and at most one kept PID per start. */
  lemma {:induction false} ExtraRunBound(apps: seq<string>, files: set<string>, answers: seq<Option<int>>)
    ensures var b := ExtraRun(apps, files, answers); |b.pids| <= |b.sent| <= |apps|
  {
    if apps != [] {
      ExtraRunBound(apps[..|apps| - 1], files, answers);
    }
  }

  /** Handling one more path extends the run by one step. */
  lemma ExtraRunStep(apps: seq<string>, files: set<string>, answers: seq<Option<int>>, k: int)
    requires 0 <= k < |apps|
    ensures ExtraRun(apps[..k + 1], files, answers) == ExtraStep(ExtraRun(apps[..k], files, answers), Strip(apps[k]), files)
  {
    assert apps[..k + 1][..k] == apps[..k];
  }

  /** The stripped, non-blank, existing paths, in order. */
  function ExtraTargets(apps: seq<string>, files: set<string>): seq<string>
  {
    if apps == [] then []
    else
      var app := Strip(apps[|apps| - 1]);
      ExtraTargets(apps[..|apps| - 1], files) + (if app != [] && app in files then [app] else [])
  }

  /** One start per path, without a working directory. */
  function Starts(paths: seq<string>): seq<Request>
  {
    seq(|paths|, i requires 0 <= i < |paths| => Request.Spawn([paths[i]], None))
  }

  /** The answers the first `n` starts get. */
  function Pad(answers: seq<Option<int>>, n: nat): seq<Option<int>>
  {
    seq(n, i requires 0 <= i < n => AnswerAt(answers, i))
  }

  /** After `m` starts, the next one gets the m-th answer. */
  lemma DropStep(answers: seq<Option<int>>, m: nat)
    ensures FirstAnswer(Drop(answers, m)) == AnswerAt(answers, m)
    ensures LaterAnswers(Drop(answers, m)) == Drop(answers, m + 1)
  {
  }

  /** One more target adds one more start. */
  lemma StartsAppend(t: seq<string>, app: string)
    ensures Starts(t + [app]) == Starts(t) + [Request.Spawn([app], None)]
  {
  }

  /** One more start adds the next answer, and its PID when it worked. */
  lemma PadAppend(answers: seq<Option<int>>, m: nat)
    ensures Pad(answers, m + 1) == Pad(answers, m) + [AnswerAt(answers, m)]
    ensures var a := AnswerAt(answers, m);
      Successes(Pad(answers, m + 1)) == Successes(Pad(answers, m)) + (if a.Some? then [a.value] else [])
  {
    assert Pad(answers, m + 1)[..m] == Pad(answers, m);
  }

  /**
   * Every target is started once, in order, and the kept PIDs are those of
   * the starts that worked, in order; the other answers stay pending.
   */
  lemma {:induction false} ExtraRunStartsTargets(apps: seq<string>, files: set<string>, answers: seq<Option<int>>)
    ensures var b := ExtraRun(apps, files, answers);
      var targets := ExtraTargets(apps, files);
      && b.sent == Starts(targets)
      && b.pids == Successes(Pad(answers, |targets|))
      && b.rest == Drop(answers, |targets|)
    decreases |apps|
  {
    if apps != [] {
      var front := apps[..|apps| - 1];
      ExtraRunStartsTargets(front, files, answers);
      ExtraStepTargets(ExtraRun(front, files, answers), ExtraTargets(front, files), Strip(apps[|apps| - 1]), files, answers);
    }
  }

  /** One step of the run keeps the batch in line with the targets handled so far. */
  lemma ExtraStepTargets(b: Batch, t: seq<string>, app: string, files: set<string>, answers: seq<Option<int>>)
    requires b.sent == Starts(t) && b.pids == Successes(Pad(answers, |t|)) && b.rest == Drop(answers, |t|)
    ensures var t' := t + (if app != [] && app in files then [app] else []);
      var r := ExtraStep(b, app, files);
      r.sent == Starts(t') && r.pids == Successes(Pad(answers, |t'|)) && r.rest == Drop(answers, |t'|)
  {
    if app != [] && app in files {
      var m := |t|;
      DropStep(answers, m);
      StartsAppend(t, app);
      PadAppend(answers, m);
    } else {
      assert t + [] == t;
    }
  }
}
