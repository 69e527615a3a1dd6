# Game-process supervision of the ZonaVR launcher, in Dafny

This project models `ProyectoZonaVr/core/process_manager.py`, the part of the ZonaVR launcher that
starts games and keeps track of them. It proves properties of that model.

The launcher starts a game in one of two ways:

- A direct executable, through `subprocess.Popen`.
- A Steam AppID, through `steam.exe -applaunch` or the `steam://` protocol.

It then starts the game's auxiliary applications beside it. Later it can say whether the game is
still running, and it can kill the game and its auxiliaries.

A Steam game gives the launcher no process handle. The launcher therefore looks for the game
process in one of three ways:

- With psutil: the heaviest `.exe` that is not a Steam helper and appeared after the launch.
- By diffing `tasklist` snapshots.
- Later, from a watcher thread.

It tracks the game through `_SteamTrackedProc`, a small state machine over `pid`, `_img` and
`_alive`.

## Modules

| file | module | what it holds |
|---|---|---|
| `wrappers.dfy` | `Wrappers` | `Option`, `Result`. |
| `text.dfy` | `Text` | The Python string operations the source uses: `strip`, `lower`, `split(",")`, argument-free `split()`, `startswith`/`endswith`/`in`. |
| `platform.dfy` | `Platform` | The OS as an object (see below). |
| `detect.dfy` | `Detect` | `_tasklist_images` and `_STEAM_SUPPORT_PROCS`. The psutil ranking and the tasklist diff, each as a function on one poll cycle, a walk over the cycles, and a method with the source's loops proved equal to the walk. |
| `handles.dfy` | `Handles` | `_SteamTrackedProc`, `subprocess.Popen` as the launcher uses it, and `GameProcess`. |
| `watcher.dfy` | `Watcher` | `_steam_attach_watcher`. |
| `launching.dfy` | `Launching` | The `Game` fields, the exceptions, and value-level descriptions of `_launch_exe`, `_launch_steam`, `_launch_steam_exe`, `_launch_steam_protocol` and `_launch_extra_apps`: which requests reach the OS and which exception escapes. |
| `manager.dfy` | `Manager` | `ProcessManager`, a class with `_current_proc` and `_extra_procs`, whose methods are proved against `Launching`. |

The OS (`Platform.Os`) holds:

- `live`: the set of live PIDs. `_pid_alive` is membership in this set.
- `files`: the paths that exist.
- `answers`: the answers to the coming process starts, in order. Each is a PID, or None for a
  start that raises. When the list is used up, every start fails.
- `uriHandler`: whether `os.startfile` can open `steam://`.
- `log`: every request sent (start, open URI, kill tree, kill image, terminate).

Contracts state exactly which requests an operation issued, in which order.

Time is an integer number of milliseconds, so the 0.5 s grace window is `GraceMs = 500`. Each
timeout loop is a sequence of snapshots: one per poll cycle that starts before the timeout. The
values the world supplies to `_launch_steam` are parameters of type `SteamEnv`:

- `t0`;
- whether psutil is importable;
- the `tasklist` output before the launch;
- what each psutil cycle enumerates;
- what each `tasklist` poll prints.

## Model

| member | source | states |
|---|---|---|
| Text.StripCharsDecomposes | ProyectoZonaVr/core/process_manager.py:93 | `s.strip(chars)` removes only characters of `chars`, and only at the two ends; the result neither starts nor ends with one. |
| Text.StripCharsOfSurrounded | ProyectoZonaVr/core/process_manager.py:93 | Converse: a string with runs of `chars` around a core that does not start or end with one strips to that core. |
| Text.StripCharsUnchanged | ProyectoZonaVr/core/process_manager.py:93 | `strip` leaves a string alone exactly when it has no stripped character at either end. |
| Text.BlankIsAllSpace | ProyectoZonaVr/core/process_manager.py:91 | `not line.strip()` holds exactly when the line is all whitespace. |
| Text.Lower | ProyectoZonaVr/core/process_manager.py:95 | `lower()` keeps the length, turns each upper-case ASCII letter into its own lower-case letter (code point + 32), leaves no upper-case letter, and changes nothing else. |
| Text.LowerFixedPoint | ProyectoZonaVr/core/process_manager.py:136 | Lower-casing changes nothing exactly when there is no upper-case letter; it is idempotent. |
| Text.Split | ProyectoZonaVr/core/process_manager.py:93 | `line.split(",")` yields at least one piece and no piece contains a comma. |
| Text.JoinSplit | ProyectoZonaVr/core/process_manager.py:93 | Joining the pieces of `split(c)` with `c` restores the line. |
| Text.Words | ProyectoZonaVr/core/process_manager.py:459 | Every word of argument-free `split()` is non-empty and whitespace-free. |
| Text.WordsGaps | ProyectoZonaVr/core/process_manager.py:459 | The words of `split()` are the maximal runs of non-whitespace: the input is its words with all-whitespace gaps between them, every gap between two words non-empty, the outer two possibly empty. |
| Text.WordsOfInterleave | ProyectoZonaVr/core/process_manager.py:459 | Converse: any text laid out as non-empty whitespace-free words with such gaps splits into exactly those words, so `WordsGaps` determines `split()`. |
| Text.WordsKeepText | ProyectoZonaVr/core/process_manager.py:459 | The words of `split()`, laid end to end, are the input without its whitespace. |
| Text.WordsOfJoin | ProyectoZonaVr/core/process_manager.py:459 | Non-empty whitespace-free words joined by spaces split back into the same words. |
| Platform.Os.Spawn | ProyectoZonaVr/core/process_manager.py:465-469 | A start takes the next answer, logs the request, and makes a started PID live. |
| Platform.Os.StartFile | ProyectoZonaVr/core/process_manager.py:553 | `os.startfile` succeeds exactly when a URI handler exists and is logged. |
| Platform.Os.KillTree | ProyectoZonaVr/core/process_manager.py:51-61 | `_kill_tree` logs exactly one tree kill and never fails. |
| Platform.Os.TaskkillImage | ProyectoZonaVr/core/process_manager.py:64-77 | `_taskkill_image` sends nothing for an empty name and one image kill otherwise. |
| Platform.Os.Terminate | ProyectoZonaVr/core/process_manager.py:229-234 | `Popen.terminate()` logs one terminate request. |
| Detect.ImageOf | ProyectoZonaVr/core/process_manager.py:93-95 | An image name read from a row is lower-case. |
| Detect.ImagesOfBound | ProyectoZonaVr/core/process_manager.py:89-96 | At most one name per line is collected. |
| Detect.ImageSet | ProyectoZonaVr/core/process_manager.py:80-98 | The snapshot is empty exactly when `tasklist` failed or printed only blank lines. |
| Detect.ImagesOfEmpty | ProyectoZonaVr/core/process_manager.py:89-96 | No name is collected exactly when every line is blank. |
| Detect.ImagesOfMembers | ProyectoZonaVr/core/process_manager.py:89-96 | A name is collected exactly when some non-blank line carries it as its first field. |
| Detect.ImagesOfWitness | ProyectoZonaVr/core/process_manager.py:89-96 | Every collected name comes from a specific non-blank line. |
| Detect.ImagesOfCollects | ProyectoZonaVr/core/process_manager.py:89-96 | The name of every non-blank line is collected. |
| Detect.TasklistImages | ProyectoZonaVr/core/process_manager.py:80-98 | The loop over the lines builds exactly the image set of the output, and the empty set when the command fails. |
| Detect.ImageSetClean | ProyectoZonaVr/core/process_manager.py:95 | Every name in a snapshot is lower-case. |
| Detect.LinesOfRender | ProyectoZonaVr/core/process_manager.py:90 | Cutting a `tasklist /FO CSV /NH` output into lines gives back its rows, and one empty line. |
| Detect.ImageOfRow | ProyectoZonaVr/core/process_manager.py:91-95 | A printed row is not blank, and the name read back from it is the printed name. |
| Detect.ImageSetOfRender | ProyectoZonaVr/core/process_manager.py:80-96 | Parsing a rendered output yields exactly the set of names printed. |
| Detect.IsCandidate | ProyectoZonaVr/core/process_manager.py:258-268 | A candidate passed the three filters; a process whose name psutil could not read is never one, and a candidate's name is lower-case. |
| Detect.Visit | ProyectoZonaVr/core/process_manager.py:270-281 | One enumerated process: the choice changes only to that process, only when it is a candidate, and the kept `best_rss` never drops. |
| Detect.ScanCycle | ProyectoZonaVr/core/process_manager.py:257-281 | A cycle keeps the carried choice or records one of its own candidates, and the kept `best_rss` never drops. |
| Detect.ScanCycleLastMax | ProyectoZonaVr/core/process_manager.py:257-281 | A psutil cycle picks the last-enumerated candidate of greatest memory, when that reaches the carried-over `best_rss`; otherwise it keeps the carried-over choice. A candidate passes all three filters. |
| Detect.FirstCycleChoice | ProyectoZonaVr/core/process_manager.py:253-281 | A first cycle yields no choice when nothing passes the filters. Otherwise it yields the last candidate whose memory no other candidate exceeds (`>=` tie-break). |
| Detect.PollCycle | ProyectoZonaVr/core/process_manager.py:257-281 | The `process_iter` loop, with its three filters and `>=` update, computes one scan cycle. |
| Detect.DetectPsutil | ProyectoZonaVr/core/process_manager.py:241-292 | `_detect_proc_psutil` returns `(0, "")` without psutil; otherwise it returns the first cycle result with a non-zero `best_pid`, or `(0, "")` when the cycles run out. |
| Detect.PsutilWalk | ProyectoZonaVr/core/process_manager.py:253-292 | No PID comes with `""`; started without a choice, a detected name is an `.exe` that is not a Steam helper. |
| Detect.PsutilWalkLastMax | ProyectoZonaVr/core/process_manager.py:253-292 | The walk settles in the first cycle `c` after which the carried choice has a PID (all earlier cycles end with PID 0), on the last-enumerated candidate of greatest memory in that cycle at or above the `best_rss` carried out of the earlier cycles; otherwise `(0, "")` and no cycle ended with a PID. |
| Detect.PsutilWalkFindsCandidate | ProyectoZonaVr/core/process_manager.py:253-292 | Corollary of `PsutilWalkLastMax`: a non-zero result is the PID and lower-cased name of a candidate seen in some cycle. A zero PID comes with `""`. Without candidates the result is `(0, "")`. |
| Detect.PsutilDetectSound | ProyectoZonaVr/core/process_manager.py:258-263 | A detected name ends in `.exe` and is never a Steam helper. No PID means no name. |
| Detect.GraceWindowExample | ProyectoZonaVr/core/process_manager.py:266-268 | A process created 0.6 s before `t0` is not a candidate; one created 0.4 s before is. |
| Detect.NewImagesMembers | ProyectoZonaVr/core/process_manager.py:305-308 | A name is new exactly when it appeared since the baseline, ends in `.exe` and is not a Steam helper. |
| Detect.TheOne | ProyectoZonaVr/core/process_manager.py:311 | `next(iter(s))` on a one-element set is its element. |
| Detect.DiffPick | ProyectoZonaVr/core/process_manager.py:305-327 | A pick is a new image; when several images are new it is one that does not look like an installer, updater or launcher. |
| Detect.DiffPickIff | ProyectoZonaVr/core/process_manager.py:305-327 | A cycle settles on `x` exactly when `x` is the only new image, or there are several and `x` is the only one not looking like a launcher, setup, updater or installer. |
| Detect.DiffPickSound | ProyectoZonaVr/core/process_manager.py:305-313 | A settled image is present now, absent from the baseline, an `.exe`, and not a Steam helper. |
| Detect.DiffPickNothingNew | ProyectoZonaVr/core/process_manager.py:305-310 | With nothing new since the baseline a cycle settles on nothing. |
| Detect.DiffPickExample | ProyectoZonaVr/core/process_manager.py:315-327 | Two new images, `c.exe` and `updater.exe`: the updater is set aside and `c.exe` is found. |
| Detect.ExampleNewImages | ProyectoZonaVr/core/process_manager.py:305-308 | The new images of that case are the two names. |
| Detect.ExamplePreferred | ProyectoZonaVr/core/process_manager.py:317-323 | Of those two only `c.exe` survives the substring filter. |
| Detect.DetectTasklist | ProyectoZonaVr/core/process_manager.py:295-331 | `_detect_proc_tasklist` returns the walk over the poll cycles. |
| Detect.TasklistWalk | ProyectoZonaVr/core/process_manager.py:304-331 | A found image is absent from the baseline, ends in `.exe` and is not a Steam helper. |
| Detect.TasklistWalkFirstPick | ProyectoZonaVr/core/process_manager.py:304-331 | The result is the pick of the first cycle that settles, all earlier cycles settle on nothing, and `""` is returned exactly when no cycle settles. |
| Handles.Created | ProyectoZonaVr/core/process_manager.py:135-144 | A new handle is alive; it keeps the PID exactly when it is non-zero and alive; its image is lower-case. |
| Handles.CreatedImageClean | ProyectoZonaVr/core/process_manager.py:136 | The stored image has no surrounding whitespace and is lower-case. It is empty exactly when the given image is all whitespace. |
| Handles.Attached | ProyectoZonaVr/core/process_manager.py:146-156 | `attach_pid` leaves the handle as it was, or makes it alive and tracking the usable PID. |
| Handles.AttachedEffect | ProyectoZonaVr/core/process_manager.py:146-156 | `attach_pid` changes nothing unless the PID is non-zero and alive. Then it tracks that PID, marks the handle alive, and takes the lower-cased hint when there is one, keeping the image otherwise. |
| Handles.PollState | ProyectoZonaVr/core/process_manager.py:158-171 | `poll()` keeps the PID and image, and can only clear the alive flag. |
| Handles.PollResult | ProyectoZonaVr/core/process_manager.py:158-171 | `poll()` returns None or 0, and None only for a handle still marked alive. |
| Handles.PollReportsAlive | ProyectoZonaVr/core/process_manager.py:158-171 | `poll()` returns None exactly when the handle is alive afterwards, 0 otherwise, and only ever clears the alive flag. |
| Handles.PollTwice | ProyectoZonaVr/core/process_manager.py:158-171 | A second `poll()` reports the same and changes nothing. |
| Handles.DeadIsSticky | ProyectoZonaVr/core/process_manager.py:163-164 | A dead handle polls 0 and stays as it is, whatever the process table says. |
| Handles.UnresolvedPollsNone | ProyectoZonaVr/core/process_manager.py:166-171 | A live handle without a PID polls None and is unchanged. |
| Handles.Terminated | ProyectoZonaVr/core/process_manager.py:179-191 | `terminate()` keeps the PID and image, and every later `poll()` returns 0 whatever the process table says. |
| Handles.KillRequests | ProyectoZonaVr/core/process_manager.py:179-191 | `terminate()` sends a tree kill exactly when there is a PID, first, and an image kill exactly when the image is non-empty, last. |
| Handles.PollAfterTerminate | ProyectoZonaVr/core/process_manager.py:179-191 | After `terminate()` every poll returns 0. |
| Handles.TerminateTwice | ProyectoZonaVr/core/process_manager.py:179-191 | A second `terminate()` leaves the state as it was and re-sends the same kills. |
| Handles.AttachRevivesTerminated | ProyectoZonaVr/core/process_manager.py:151-155 | Attaching a live PID to a terminated handle makes it alive again, and it polls None. |
| Handles.AttachOverwritesResolved | ProyectoZonaVr/core/process_manager.py:151-153 | `attach_pid` re-points a handle that already has a PID. |
| Handles.DeadUntilAttach | ProyectoZonaVr/core/process_manager.py:158-191 | Across any run of polls and terminates, a dead handle stays unchanged and every poll returns 0. |
| Handles.ResolvedStaysResolved | ProyectoZonaVr/core/process_manager.py:146-191 | Once a PID is tracked it never reverts to None. Without `attach_pid` it never changes. |
| Handles.SteamTrackedProc.constructor | ProyectoZonaVr/core/process_manager.py:135-144 | The new object's fields are `Created(pid, img, live)`. |
| Handles.SteamTrackedProc.AttachPid | ProyectoZonaVr/core/process_manager.py:146-156 | The fields become `Attached(old state, pid, hint, live)`. |
| Handles.SteamTrackedProc.Poll | ProyectoZonaVr/core/process_manager.py:158-171 | Returns `PollResult` of the old state; the fields become `PollState`. |
| Handles.SteamTrackedProc.Terminate | ProyectoZonaVr/core/process_manager.py:179-191 | Logs `KillRequests` of the old state; the state becomes `Terminated`. |
| Handles.Popen.Poll | ProyectoZonaVr/core/process_manager.py:221-223 | Returns the status the process has now, records it, and never changes an already-recorded status. |
| Handles.Popen.Terminate | ProyectoZonaVr/core/process_manager.py:229-234 | As Windows `Popen.terminate()`: signals a process not yet known to have ended, and records the exit status of one that has already ended; what `poll()` reports is unchanged. |
| Handles.GameProcess.Pid | ProyectoZonaVr/core/process_manager.py:216-219 | The `pid` property is the Popen's PID, or the tracked handle's PID (possibly None). |
| Handles.GameProcess.Poll | ProyectoZonaVr/core/process_manager.py:221-223 | Delegates: returns the inner handle's status and performs its poll transition. |
| Handles.GameProcess.Terminate | ProyectoZonaVr/core/process_manager.py:229-234 | Delegates: logs exactly the inner handle's termination requests; a Steam handle becomes `Terminated`, a direct `Popen` records an ended process's status and keeps what `poll()` reports. |
| Watcher.WatchLoop | ProyectoZonaVr/core/process_manager.py:349-361 | The retry loop never reports an already resolved handle; it tries an attach only with a non-zero PID, and every other ending keeps the handle's PID and image. |
| Watcher.Watch | ProyectoZonaVr/core/process_manager.py:334-361 | The watcher reports an already resolved handle exactly when it had a PID; only an attach changes the PID or image. |
| Watcher.AttachWatcher | ProyectoZonaVr/core/process_manager.py:334-361 | The retry loop leaves the handle and the outcome as the `Watch` function describes. |
| Watcher.WatchLoopAttachesFirst | ProyectoZonaVr/core/process_manager.py:349-359 | On a live handle without PID the watcher attaches the PID of the first retry that finds one, using `img_hint or img`. When no retry finds one it times out and leaves the handle unchanged. |
| Watcher.WatchResolvedUnchanged | ProyectoZonaVr/core/process_manager.py:346-347 | A handle that already has a PID is left alone. |
| Watcher.WatchTerminatedUnchanged | ProyectoZonaVr/core/process_manager.py:351-352 | A handle terminated before the watcher runs is never attached to. |
| Watcher.WatchWithoutPsutil | ProyectoZonaVr/core/process_manager.py:249-250 | Without psutil the watcher can only time out. |
| Watcher.WatchAttachesAtMostOnce | ProyectoZonaVr/core/process_manager.py:334-361 | The watcher leaves the handle as it was, or performs a single `attach_pid` with the PID it reports. When that PID is alive the handle tracks it and polls as running. |
| Launching.ExeArgs | ProyectoZonaVr/core/process_manager.py:459 | Every argument is non-empty and whitespace-free. |
| Launching.ExeArgsAreWords | ProyectoZonaVr/core/process_manager.py:459 | `args.strip().split() if args.strip() else []` equals `args.split()`, so the arguments are the maximal non-whitespace runs of `args` (with `Text.WordsGaps`). |
| Launching.ExeArgsKeepText | ProyectoZonaVr/core/process_manager.py:459 | The arguments keep every non-whitespace character of `args`, in order. |
| Launching.ExeArgsOfJoin | ProyectoZonaVr/core/process_manager.py:459 | Arguments joined by single spaces split back into the same arguments. |
| Launching.LastSep | ProyectoZonaVr/core/process_manager.py:455 | Finds the last path separator, or -1 when there is none. |
| Launching.ParentDirOf | ProyectoZonaVr/core/process_manager.py:455 | The parent of `dir\name` is `dir`; a bare name's parent is `.`. |
| Launching.ExeCommandShape | ProyectoZonaVr/core/process_manager.py:459-460 | The command is the stripped path followed by the whitespace-free arguments, which keep all of the argument text. |
| Launching.SteamExeProbe | ProyectoZonaVr/core/process_manager.py:529-547 | The probe reports a launch exactly when one of its starts returned a PID (`SteamExeProbeSends` and `SteamExeProbeAnswers` say which starts it sent and what they got). |
| Launching.SteamExeProbeSends | ProyectoZonaVr/core/process_manager.py:529-547 | The probe sends a prefix of the starts of the existing paths, all of them when nothing started. It launched exactly when it started a PID. |
| Launching.SteamExeProbeAnswers | ProyectoZonaVr/core/process_manager.py:535-547 | Every start the probe sent failed, except the last when it launched; that start's answer is the PID. |
| Launching.SteamExeProbeNoSteam | ProyectoZonaVr/core/process_manager.py:531-547 | With no steam.exe on disk the probe sends nothing and fails. |
| Launching.ExeStart | ProyectoZonaVr/core/process_manager.py:442-473 | At most one request is sent; without one no answer is consumed and an exception is raised; the start succeeds exactly when a PID was started. |
| Launching.SteamStart | ProyectoZonaVr/core/process_manager.py:477-501 | ValueError exactly for a blank AppID; a started PID always means success; at most one PID is started. |
| Launching.ExeStartValidates | ProyectoZonaVr/core/process_manager.py:442-473 | A blank path raises ValueError and a missing one FileNotFoundError, neither sending anything. Otherwise one start is sent with the command and working directory, and RuntimeError is raised exactly when it fails. |
| Launching.SteamStartValidates | ProyectoZonaVr/core/process_manager.py:483-501 | A blank AppID raises ValueError and sends nothing. Otherwise `steam://` is tried exactly when steam.exe did not launch, and RuntimeError is raised exactly when both failed. |
| Launching.TriesAreApplaunches | ProyectoZonaVr/core/process_manager.py:535-539 | Every probe request is a process start. |
| Launching.ValidationErrorsSendNothing | ProyectoZonaVr/core/process_manager.py:444-452 | A validation error sends nothing and starts nothing, whatever the game kind. |
| Launching.SteamTarget | ProyectoZonaVr/core/process_manager.py:487-516 | Without a PID the image and the watcher hint are the same; a non-empty hint is always the handle's image. |
| Launching.SteamTargetChoice | ProyectoZonaVr/core/process_manager.py:487-516 | A configured process name is always the image and the watcher hint. A psutil hit gives its PID and, without a configured name, its image. Otherwise the PID is 0 and the image is the tasklist diff's pick. |
| Launching.SteamTargetWithoutPsutil | ProyectoZonaVr/core/process_manager.py:504-525 | Without psutil the handle starts without a PID, so the watcher is always started. |
| Launching.ExtraRunBound | ProyectoZonaVr/core/process_manager.py:562-585 | At most one start per listed path and at most one kept PID per start. |
| Launching.ExtraRunStartsTargets | ProyectoZonaVr/core/process_manager.py:570-585 | Every stripped, non-blank, existing path is started once, in order. The kept PIDs are those of the starts that worked, in order. |
| Manager.ExtraKills | ProyectoZonaVr/core/process_manager.py:589-593 | No more kills are sent than there are applications. |
| Manager.ExtraKillsOnlyRunning | ProyectoZonaVr/core/process_manager.py:589-593 | Every kill targets an application still running; when none runs nothing is sent. |
| Manager.ExtraKillsEveryRunning | ProyectoZonaVr/core/process_manager.py:589-593 | Every running application's tree is killed. |
| Manager.ProcessManager.constructor | ProyectoZonaVr/core/process_manager.py:389-391 | No current process and no auxiliary applications. |
| Manager.ProcessManager.LaunchExe | ProyectoZonaVr/core/process_manager.py:442-473 | Raises, sends and starts exactly what `ExeStart` says; a success is a fresh Popen with the started PID. |
| Manager.ProcessManager.LaunchSteamExe | ProyectoZonaVr/core/process_manager.py:529-547 | Does exactly what `SteamExeProbe` says over the two install paths. |
| Manager.ProcessManager.ProbePaths | ProyectoZonaVr/core/process_manager.py:535-547 | The loop over the paths performs the probe. |
| Manager.ProcessManager.LaunchSteamProtocol | ProyectoZonaVr/core/process_manager.py:549-558 | Opens `steam://rungameid/<id>` and succeeds exactly when a handler exists. |
| Manager.ProcessManager.StartSteamApp | ProyectoZonaVr/core/process_manager.py:494-496 | The protocol fallback runs only after steam.exe failed; it launched exactly when either worked. |
| Manager.ProcessManager.SteamHandle | ProyectoZonaVr/core/process_manager.py:504-525 | The handle is built from `SteamTarget`; a watcher request with `(proc, t0, kill_img, 90)` exists exactly when the handle has no PID. |
| Manager.ProcessManager.LaunchSteam | ProyectoZonaVr/core/process_manager.py:477-527 | Raises, sends and starts exactly what `SteamStart` says. On success it returns a fresh tracked handle built from `SteamTarget`, plus the watcher request when it has no PID. |
| Manager.ProcessManager.LaunchExtraApps | ProyectoZonaVr/core/process_manager.py:562-585 | Clears the list, then holds exactly the PIDs of `ExtraRun`, all fresh and unfinished, with its requests logged. |
| Manager.ProcessManager.Launch | ProyectoZonaVr/core/process_manager.py:395-415 | On an exception the current process and the extras are unchanged and only the start's requests were sent. On success the new handle is current, then the extras are started. |
| Manager.ProcessManager.KillExtraApps | ProyectoZonaVr/core/process_manager.py:587-595 | Sends `ExtraKills` (one tree kill per running application, in order), records each status, and empties the list. |
| Manager.ProcessManager.DropCurrent | ProyectoZonaVr/core/process_manager.py:423-426 | Terminates the current process if any and forgets it. What the auxiliary applications report, and so the kills `_kill_extra_apps` will send, is unchanged. |
| Manager.ProcessManager.KillCurrent | ProyectoZonaVr/core/process_manager.py:417-427 | Terminates and clears the current process if any, then always kills the running extras and empties the list. A Steam handle becomes `Terminated`; a direct `Popen` still reports the status it reported before. |
| Manager.ProcessManager.IsRunning | ProyectoZonaVr/core/process_manager.py:429-433 | False with no current process. Otherwise true exactly when the current process reports no exit status; its status is unchanged by the poll, and a direct `Popen` records the status it reported, so a later `kill_current()` sends it no terminate once it has ended. |

## Left out

- `wait()` on `_SteamTrackedProc` and `GameProcess` (lines 173-177, 225-227): it blocks on a sleep loop. It is `poll()` repeated until it reports an end, so it adds nothing over `poll`.
- Threads: the watcher is not started on a daemon thread. `_launch_steam` returns a `WatchRequest` with the thread's arguments, and `Watcher.AttachWatcher` runs the thread's body sequentially against a fixed process table. Races between the watcher and `terminate()` are not modelled.
- Clocks and timeouts: `time.time()`, `time.sleep` and the float timeouts are replaced by a sequence of snapshots, one per cycle before the timeout, and integer millisecond timestamps. `config.STEAM_DETECT_TIMEOUT` is not part of this model.
- `_pid_alive` is membership in the set of live PIDs. The `tasklist /FI` call and the test for the PID's digits in its output are not modelled.
- Foreign calls: `subprocess`, `psutil`, `taskkill` and `os.startfile` are the `Os` object. Its answers are inputs. A psutil exception in the middle of a cycle is not modelled, and neither is a failing `taskkill`.
- Kills are recorded in the request log; they do not remove PIDs from the process table. `Handles.Popen.Terminate` follows CPython's Windows `Popen.terminate()`: an ended process has its exit status recorded, and a running one is only signalled. The `PermissionError` it re-raises for a process that is still running is not modelled; `GameProcess.terminate` would swallow it.
- `Platform.Os.ExitCode` reports 0 for a process whose exit status the model has no record of.
- Path handling: `Path(p).exists()` is membership in a set of existing path strings, with no normalisation. `Launching.ParentDir` cuts at the last `\` or `/`, and gives `.` for a bare name. The root case (`C:\game.exe` gives `C:\` in pathlib) is not modelled. `pathlib` also normalises separators, doubled slashes and `.` segments; the model does not, so argv[0] of a direct start (`Launching.ExeCommand`) and the working directory derived from the executable's parent (`Launching.ExeCwd`) are the configured path text, stripped.
- `str.lower()` is modelled for ASCII letters only; `strip()` and `split()` use Python's whitespace set.
- `Detect.Lines`: `splitlines()` is modelled as cutting at every line-boundary character, so `\r\n` yields an extra empty line. Empty lines are skipped by the parser, so the image set is the same.
- `_creationflags()` and `config.LOG`: platform flags and logging, with no effect on the launcher's state.
- The read-only property `current_proc` (lines 435-438) is the public field `current` of `Manager.ProcessManager`.
- `GameProcess.terminate` swallows exceptions; the model's handles never raise, so there is nothing to swallow.

The model follows the code as written where it is more permissive than its docstrings suggest:

- `attach_pid` checks neither `_alive` nor whether a PID is already tracked. A terminated handle is revived (`Handles.AttachRevivesTerminated`) and a resolved one is re-pointed (`Handles.AttachOverwritesResolved`).
- A repeated `terminate()` sends its kill requests again (`Handles.TerminateTwice`).
- `launch` replaces the current process without terminating it. `_launch_extra_apps` forgets earlier auxiliary applications without killing them.
