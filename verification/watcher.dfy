/**
 * `_steam_attach_watcher` (process_manager.py): the late-attach retry loop
 * that looks for a slow-starting Steam game and attaches its PID to the
 * handle `_launch_steam` returned.
 *
 * The source runs it on a daemon thread for up to 90 seconds. Here it runs
 * sequentially: `attempts` holds, for each retry that starts before the
 * timeout, the enumerations its `_detect_proc_psutil(t0, 3)` call sees, and
 * the process table `os.live` is fixed for the duration of the loop.
 */
module Watcher {
  import opened Wrappers
  import opened Platform
  import opened Detect
  import opened Handles

  /** How the watcher ended. */
  datatype WatchEnd =
    | AlreadyResolved    // the handle had a PID before the loop started
    | HandleEnded        // `poll()` reported the handle ended (or was terminated)
    | AttachTried(pid: int)  // a detection found `pid` and `attach_pid` was called with it
    | TimedOut           // every retry before the timeout came back empty

  /** `img_hint or img`. */
  function HintOr(hint: string, img: string): string
  {
    if hint != "" then hint else img
  }

  /**
   * The retry loop, from the handle state `s`, over the remaining retries.
   * An attach is tried only with a non-zero PID, and every other ending
   * leaves the handle's PID and image as they were.
   */
  function WatchLoop(s: Tracked, t0: int, hint: string, psutilPresent: bool, attempts: seq<seq<seq<ProcInfo>>>, live: set<int>): (r: (WatchEnd, Tracked))
    ensures r.0 != AlreadyResolved
    ensures r.0.AttachTried? ==> r.0.pid != 0
    ensures !r.0.AttachTried? ==> r.1.pid == s.pid && r.1.img == s.img
    decreases |attempts|
  {
    if attempts == [] then (TimedOut, s)
    else if PollResult(s, live).Some? then (HandleEnded, PollState(s, live))
    else
      var found := PsutilDetect(psutilPresent, t0, attempts[0]);
      if found.0 != 0 then (AttachTried(found.0), Attached(PollState(s, live), found.0, HintOr(hint, found.1), live))
      else WatchLoop(PollState(s, live), t0, hint, psutilPresent, attempts[1..], live)
  }

  /** What the watcher does to a handle in state `s`, and how it ends: it reports an already resolved handle exactly when `s` has a PID, and only an attach changes the PID or image. */
  function Watch(s: Tracked, t0: int, hint: string, psutilPresent: bool, attempts: seq<seq<seq<ProcInfo>>>, live: set<int>): (r: (WatchEnd, Tracked))
    ensures r.0 == AlreadyResolved <==> s.pid.Some?
    ensures !r.0.AttachTried? ==> r.1.pid == s.pid && r.1.img == s.img
  {
    if s.pid.Some? then (AlreadyResolved, s) else WatchLoop(s, t0, hint, psutilPresent, attempts, live)
  }

  /** `_steam_attach_watcher(proc, t0, img_hint, timeout)`. */
  method AttachWatcher(proc: SteamTrackedProc, t0: int, hint: string, psutilPresent: bool, attempts: seq<seq<seq<ProcInfo>>>, os: Os)
    returns (end: WatchEnd)
    modifies proc
    ensures (end, proc.State()) == Watch(old(proc.State()), t0, hint, psutilPresent, attempts, os.live)
  {
    if proc.pid.Some? {
      return AlreadyResolved;
    }
    var k := 0;
    while k < |attempts|
      invariant 0 <= k <= |attempts|
      invariant proc.pid.None?
      invariant WatchLoop(old(proc.State()), t0, hint, psutilPresent, attempts, os.live)
        == WatchLoop(proc.State(), t0, hint, psutilPresent, attempts[k..], os.live)
    {
      assert attempts[k..][0] == attempts[k] && attempts[k..][1..] == attempts[k + 1..];
      var code := proc.Poll(os);
      if code.Some? {
        return HandleEnded;
      }
      var pid, img := DetectPsutil(psutilPresent, t0, attempts[k]);
      if pid != 0 {
        proc.AttachPid(pid, HintOr(hint, img), os);
        return AttachTried(pid);
      }
      k := k + 1;
    }
    return TimedOut;
  }

  /** Index `k` is the first retry whose detection finds a PID. */
  predicate FirstFound(psutilPresent: bool, t0: int, attempts: seq<seq<seq<ProcInfo>>>, k: int)
  {
    && 0 <= k < |attempts|
    && PsutilDetect(psutilPresent, t0, attempts[k]).0 != 0
    && forall j :: 0 <= j < k ==> PsutilDetect(psutilPresent, t0, attempts[j]).0 == 0
  }

  /**
   * On a live handle without a PID the watcher attaches the PID of the first
   * retry that finds one, with `img_hint or img` as the image, and returns;
   * when no retry finds one it times out and leaves the handle unchanged.
   */
  lemma {:induction false} WatchLoopAttachesFirst(s: Tracked, t0: int, hint: string, psutilPresent: bool, attempts: seq<seq<seq<ProcInfo>>>, live: set<int>)
    requires s.alive && s.pid.None?
    ensures (forall j :: 0 <= j < |attempts| ==> PsutilDetect(psutilPresent, t0, attempts[j]).0 == 0) ==>
      WatchLoop(s, t0, hint, psutilPresent, attempts, live) == (TimedOut, s)
    ensures forall k :: FirstFound(psutilPresent, t0, attempts, k) ==>
      var found := PsutilDetect(psutilPresent, t0, attempts[k]);
      WatchLoop(s, t0, hint, psutilPresent, attempts, live) == (AttachTried(found.0), Attached(s, found.0, HintOr(hint, found.1), live))
    decreases |attempts|
  {
    if attempts != [] {
      UnresolvedPollsNone(s, live);
      WatchLoopAttachesFirst(s, t0, hint, psutilPresent, attempts[1..], live);
      forall j | 0 <= j < |attempts[1..]| ensures attempts[1..][j] == attempts[j + 1] {
      }
      forall k | FirstFound(psutilPresent, t0, attempts, k)
        ensures var found := PsutilDetect(psutilPresent, t0, attempts[k]);
          WatchLoop(s, t0, hint, psutilPresent, attempts, live) == (AttachTried(found.0), Attached(s, found.0, HintOr(hint, found.1), live))
      {
        if k > 0 {
          assert FirstFound(psutilPresent, t0, attempts[1..], k - 1);
        }
      }
    }
  }

  /** A handle that already has a PID is left alone. */
  lemma WatchResolvedUnchanged(s: Tracked, t0: int, hint: string, psutilPresent: bool, attempts: seq<seq<seq<ProcInfo>>>, live: set<int>)
    requires s.pid.Some?
    ensures Watch(s, t0, hint, psutilPresent, attempts, live) == (AlreadyResolved, s)
  {
  }

  /** A handle terminated before the watcher runs is never attached to: the first poll reports it ended. */
  lemma WatchTerminatedUnchanged(s: Tracked, t0: int, hint: string, psutilPresent: bool, attempts: seq<seq<seq<ProcInfo>>>, live: set<int>)
    requires !s.alive
    ensures Watch(s, t0, hint, psutilPresent, attempts, live).1 == s
    ensures Watch(s, t0, hint, psutilPresent, attempts, live).0 in {AlreadyResolved, HandleEnded, TimedOut}
  {
    DeadIsSticky(s, live);
  }

  /** Without psutil the watcher can only time out. */
  lemma WatchWithoutPsutil(s: Tracked, t0: int, hint: string, attempts: seq<seq<seq<ProcInfo>>>, live: set<int>)
    requires s.alive && s.pid.None?
    ensures Watch(s, t0, hint, false, attempts, live) == (TimedOut, s)
  {
    WatchLoopAttachesFirst(s, t0, hint, false, attempts, live);
  }

  /**
   * The watcher attaches at most once and only to a detected PID: it leaves
   * the handle as it was, or performs a single `attach_pid` with the PID it
   * reports. When that PID is alive the handle then tracks it, is alive, and
   * polls as running.
   */
  lemma {:induction false} WatchAttachesAtMostOnce(s: Tracked, t0: int, hint: string, psutilPresent: bool, attempts: seq<seq<seq<ProcInfo>>>, live: set<int>)
    ensures var r := Watch(s, t0, hint, psutilPresent, attempts, live);
      && (!r.0.AttachTried? ==> r.1 == s)
      && (r.0.AttachTried? ==> exists img :: r.1 == Attached(s, r.0.pid, img, live))
      && (r.0.AttachTried? && Usable(r.0.pid, live) ==> r.1.pid == Some(r.0.pid) && PollResult(r.1, live) == None)
    decreases |attempts|
  {
    if s.pid.None? && attempts != [] && PollResult(s, live).None? {
      UnresolvedPollsNone(s, live);
      var found := PsutilDetect(psutilPresent, t0, attempts[0]);
      if found.0 != 0 {
        assert Watch(s, t0, hint, psutilPresent, attempts, live).1 == Attached(s, found.0, HintOr(hint, found.1), live);
      } else {
        WatchAttachesAtMostOnce(s, t0, hint, psutilPresent, attempts[1..], live);
      }
    }
  }
}
