/**
 * The process handles the launcher hands out (process_manager.py): the
 * `subprocess.Popen` of a directly started executable, the
 * `_SteamTrackedProc` that stands in for a Steam game (tracked by PID once
 * found, by image name until then), and `GameProcess`, the wrapper that
 * delegates to either.
 *
 * `_SteamTrackedProc` is a small state machine. Its transitions are stated
 * once, as functions on the value `Tracked` of its three fields; the class
 * methods are proved to perform exactly those transitions, and the lemmas
 * below state what the transitions guarantee.
 */
module Handles {
  import opened Wrappers
  import opened Text
  import opened Platform

  // ===========================================================================
  // _SteamTrackedProc, as a value
  // ===========================================================================

  /** The fields `pid`, `_img` and `_alive` of a `_SteamTrackedProc`. */
  datatype Tracked = Tracked(pid: Option<int>, img: string, alive: bool)

  /** `pid and _pid_alive(pid)`: the test both `__init__` and `attach_pid` apply to a PID. */
  predicate Usable(pid: int, live: set<int>)
  {
    pid != 0 && pid in live
  }

  /** The handle `__init__(pid, img)` builds while the live PIDs are `live`. */
  function Created(pid: int, img: string, live: set<int>): (s: Tracked)
    ensures s.alive
    ensures s.pid == Some(pid) <==> Usable(pid, live)
    ensures s.pid.Some? ==> s.pid == Some(pid)
    ensures NoUpper(s.img)
  {
    Tracked(if Usable(pid, live) then Some(pid) else None, Lower(Strip(img)), true)
  }

  /** The image stored at construction has no surrounding whitespace and is lower-case. */
  lemma CreatedImageClean(pid: int, img: string, live: set<int>)
    ensures var s := Created(pid, img, live);
      && NoUpper(s.img)
      && (s.img == [] || (s.img[0] !in WhiteSpace && s.img[|s.img| - 1] !in WhiteSpace))
      && (AllIn(img, WhiteSpace) <==> s.img == "")
  {
    var pre, post := StripCharsDecomposes(img, WhiteSpace);
    BlankIsAllSpace(img);
    var st := Strip(img);
    if st != [] {
      LowerKeepsSpace(st, 0);
      LowerKeepsSpace(st, |st| - 1);
    }
  }

  /** `attach_pid(pid, hint)` while the live PIDs are `live`: the handle is unchanged, or it is alive and tracks the usable `pid`. */
  function Attached(s: Tracked, pid: int, hint: string, live: set<int>): (t: Tracked)
    ensures t == s || (Usable(pid, live) && t.pid == Some(pid) && t.alive)
  {
    if Usable(pid, live) then Tracked(Some(pid), if hint != "" then Lower(hint) else s.img, true)
    else s
  }

  /**
   * `attach_pid` changes nothing unless the PID is non-zero and alive; then
   * the handle tracks that PID and is alive, and the image is the lower-cased
   * hint when there is one and is kept otherwise.
   */
  lemma AttachedEffect(s: Tracked, pid: int, hint: string, live: set<int>)
    ensures !Usable(pid, live) ==> Attached(s, pid, hint, live) == s
    ensures Usable(pid, live) ==>
      var t := Attached(s, pid, hint, live);
      && t.pid == Some(pid) && t.alive
      && (hint == "" ==> t.img == s.img)
      && (hint != "" ==> t.img == Lower(hint) && NoUpper(t.img))
  {
  }

  /** The state after `poll()`: a handle with a PID is alive exactly when that PID is. Only the alive flag can change, and only to false. */
  function PollState(s: Tracked, live: set<int>): (t: Tracked)
    ensures t.pid == s.pid && t.img == s.img
    ensures t.alive ==> s.alive
  {
    if s.alive && s.pid.Some? then s.(alive := s.pid.value in live) else s
  }

  /** What `poll()` returns: None while the game runs, 0 once it has ended; a handle marked dead never reports None. */
  function PollResult(s: Tracked, live: set<int>): (r: Option<int>)
    ensures r == None || r == Some(0)
    ensures r == None ==> s.alive
  {
    if !s.alive then Some(0)
    else if s.pid.Some? && s.pid.value !in live then Some(0)
    else None
  }

  /**
   * `poll()` reports None exactly when the handle is still alive after it,
   * and 0 otherwise; it only ever clears the alive flag.
   */
  lemma PollReportsAlive(s: Tracked, live: set<int>)
    ensures PollResult(s, live) == (if PollState(s, live).alive then None else Some(0))
    ensures PollState(s, live).pid == s.pid && PollState(s, live).img == s.img
    ensures PollState(s, live).alive ==> s.alive
  {
  }

  /** Polling twice in a row reports the same as polling once. */
  lemma PollTwice(s: Tracked, live: set<int>)
    ensures PollResult(PollState(s, live), live) == PollResult(s, live)
    ensures PollState(PollState(s, live), live) == PollState(s, live)
  {
  }

  /** Once the handle is dead `poll()` returns 0 and changes nothing, whatever the process table says. */
  lemma DeadIsSticky(s: Tracked, live: set<int>)
    requires !s.alive
    ensures PollResult(s, live) == Some(0) && PollState(s, live) == s
  {
  }

  /** Without a PID a live handle is assumed to be running: `poll()` returns None and changes nothing. */
  lemma UnresolvedPollsNone(s: Tracked, live: set<int>)
    requires s.alive && s.pid.None?
    ensures PollResult(s, live) == None && PollState(s, live) == s
  {
  }

  /** `terminate()` marks the handle dead and changes nothing else: every later `poll()` reports 0. */
  function Terminated(s: Tracked): (t: Tracked)
    ensures t.pid == s.pid && t.img == s.img
    ensures forall live: set<int> :: PollResult(t, live) == Some(0)
  {
    s.(alive := false)
  }

  /** The kill requests `terminate()` sends: by PID tree when there is a PID, then by image when there is one. */
  function KillRequests(s: Tracked): (r: seq<Request>)
    ensures |r| <= 2
    ensures s.pid.Some? <==> (r != [] && r[0].KillTree?)
    ensures s.pid.Some? ==> r[0] == Request.KillTree(s.pid.value)
    ensures s.img != "" <==> (r != [] && r[|r| - 1] == KillImage(s.img))
  {
    (if s.pid.Some? then [Request.KillTree(s.pid.value)] else []) + ImageKill(s.img)
  }

  /** After `terminate()` every `poll()` returns 0, whichever processes are alive. */
  lemma PollAfterTerminate(s: Tracked, live: set<int>)
    ensures PollResult(Terminated(s), live) == Some(0)
    ensures PollState(Terminated(s), live) == Terminated(s)
  {
  }

  /** A second `terminate()` leaves the state as the first left it, and sends the same kill requests again. */
  lemma TerminateTwice(s: Tracked)
    ensures Terminated(Terminated(s)) == Terminated(s)
    ensures KillRequests(Terminated(s)) == KillRequests(s)
  {
  }

  /**
   * `attach_pid` does not look at `_alive`: attaching a live PID to a
   * terminated handle makes it alive again, and the next `poll()` reports it
   * running.
   */
  lemma AttachRevivesTerminated(s: Tracked, pid: int, hint: string, live: set<int>)
    requires Usable(pid, live)
    ensures Attached(Terminated(s), pid, hint, live).alive
    ensures PollResult(Attached(Terminated(s), pid, hint, live), live) == None
  {
  }

  /** `attach_pid` does not look at an existing PID either: a resolved handle is re-pointed. */
  lemma AttachOverwritesResolved(s: Tracked, pid: int, hint: string, live: set<int>)
    requires s.pid.Some? && Usable(pid, live)
    ensures Attached(s, pid, hint, live).pid == Some(pid)
  {
  }

  // ---------------------------------------------------------------------------
  // Runs of operations
  // ---------------------------------------------------------------------------

  /** One call on a handle, with the live PIDs at the time of the call. */
  datatype Op =
    | Attach(pid: int, hint: string, live: set<int>)
    | Poll(live: set<int>)
    | Terminate

  /** The state after one call. */
  function Step(s: Tracked, op: Op): Tracked
  {
    match op
    case Attach(pid, hint, live) => Attached(s, pid, hint, live)
    case Poll(live) => PollState(s, live)
    case Terminate => Terminated(s)
  }

  /** The state after a run of calls. */
  function Run(s: Tracked, ops: seq<Op>): Tracked
    decreases |ops|
  {
    if ops == [] then s else Run(Step(s, ops[0]), ops[1..])
  }

  /** What each `poll()` of a run returned, in order. */
  function Polls(s: Tracked, ops: seq<Op>): seq<Option<int>>
    decreases |ops|
  {
    if ops == [] then []
    else
      var rest := Polls(Step(s, ops[0]), ops[1..]);
      if ops[0].Poll? then [PollResult(s, ops[0].live)] + rest else rest
  }

  /** A run in which nothing is attached. */
  predicate NoAttach(ops: seq<Op>)
  {
    forall i :: 0 <= i < |ops| ==> !ops[i].Attach?
  }

  /**
   * A dead handle stays dead until something is attached: every `poll()` in
   * a run without `attach_pid` returns 0, and the state does not change.
   */
  lemma {:induction false} DeadUntilAttach(s: Tracked, ops: seq<Op>)
    requires !s.alive && NoAttach(ops)
    ensures Run(s, ops) == s
    ensures forall i :: 0 <= i < |Polls(s, ops)| ==> Polls(s, ops)[i] == Some(0)
    decreases |ops|
  {
    if ops != [] {
      assert !ops[0].Attach?;
      assert NoAttach(ops[1..]) by {
        forall i | 0 <= i < |ops[1..]| ensures !ops[1..][i].Attach? {
          assert ops[1..][i] == ops[i + 1];
        }
      }
      DeadUntilAttach(s, ops[1..]);
    }
  }

  /** Once a PID is tracked it never goes back to None, and the handle never stops tracking some PID. */
  lemma {:induction false} ResolvedStaysResolved(s: Tracked, ops: seq<Op>)
    requires s.pid.Some?
    ensures Run(s, ops).pid.Some?
    ensures NoAttach(ops) ==> Run(s, ops).pid == s.pid
    decreases |ops|
  {
    if ops != [] {
      if NoAttach(ops) {
        assert NoAttach(ops[1..]) by {
          forall i | 0 <= i < |ops[1..]| ensures !ops[1..][i].Attach? {
            assert ops[1..][i] == ops[i + 1];
          }
        }
        assert !ops[0].Attach?;
      }
      ResolvedStaysResolved(Step(s, ops[0]), ops[1..]);
    }
  }

  // ===========================================================================
  // _SteamTrackedProc, as an object
  // ===========================================================================

  class SteamTrackedProc {
    var pid: Option<int>
    var img: string
    var alive: bool

    /** The three fields as one value. */
    function State(): Tracked
      reads this
    {
      Tracked(pid, img, alive)
    }

    /** `_SteamTrackedProc(pid, img)`: asks the OS whether `pid` is alive. */
    constructor (pid: int, img: string, os: Os)
      ensures State() == Created(pid, img, os.live)
    {
      this.img := Lower(Strip(img));
      this.alive := true;
      if pid != 0 && os.PidAlive(pid) {
        this.pid := Some(pid);
      } else {
        this.pid := None;
      }
    }

    /** `attach_pid(pid, img_hint)`. */
    method AttachPid(pid: int, hint: string, os: Os)
      modifies this
      ensures State() == Attached(old(State()), pid, hint, os.live)
    {
      if pid != 0 && os.PidAlive(pid) {
        this.pid := Some(pid);
        if hint != "" {
          img := Lower(hint);
        }
        alive := true;
      }
    }

    /** `poll()`. */
    method Poll(os: Os) returns (code: Option<int>)
      modifies this`alive
      ensures code == PollResult(old(State()), os.live)
      ensures State() == PollState(old(State()), os.live)
    {
      if !alive {
        return Some(0);
      }
      if pid.Some? {
        alive := os.PidAlive(pid.value);
      }
      code := if alive then None else Some(0);
    }

    /** `terminate()`: kill by PID tree, then by image, then mark dead. */
    method Terminate(os: Os)
      modifies this`alive, os`log
      ensures os.log == old(os.log) + KillRequests(old(State()))
      ensures State() == Terminated(old(State()))
    {
      if pid.Some? {
        os.KillTree(pid.value);
      }
      if img != "" {
        os.TaskkillImage(img);
      }
      alive := false;
    }
  }

  // ===========================================================================
  // subprocess.Popen, as far as the launcher uses it
  // ===========================================================================

  /** A directly started process: its PID and the exit status once it is known. */
  class Popen {
    const pid: int
    var returncode: Option<int>

    constructor (pid: int)
      ensures this.pid == pid && returncode == None
    {
      this.pid := pid;
      returncode := None;
    }

    /** What `poll()` would return now: the recorded status, else None while the process is alive, else its exit status. */
    function Status(os: Os): Option<int>
      reads this, os
    {
      if returncode.Some? then returncode
      else if os.PidAlive(pid) then None
      else Some(os.ExitCode(pid))
    }

    /** `Popen.poll()`: records the exit status the first time the process is seen to have ended. */
    method Poll(os: Os) returns (code: Option<int>)
      modifies this`returncode
      ensures code == old(Status(os)) && returncode == code
      ensures old(returncode).Some? ==> code == old(returncode)
    {
      if returncode.None? && !os.PidAlive(pid) {
        returncode := Some(os.ExitCode(pid));
      }
      code := returncode;
    }

    /**
     * `Popen.terminate()` on Windows: a process already known to have ended
     * is not signalled; when `TerminateProcess` finds the process already
     * gone, its exit status is recorded, so what `poll()` reports is unchanged.
     */
    method Terminate(os: Os)
      modifies this`returncode, os`log
      ensures returncode == if old(returncode).None? && !os.PidAlive(pid) then Some(os.ExitCode(pid)) else old(returncode)
      ensures Status(os) == old(Status(os))
      ensures os.log == old(os.log) + if old(returncode).None? then [TerminateProcess(pid)] else []
    {
      if returncode.None? {
        os.Terminate(pid);
        if !os.PidAlive(pid) {
          returncode := Some(os.ExitCode(pid));
        }
      }
    }
  }

  // ===========================================================================
  // GameProcess
  // ===========================================================================

  /** `GameProcess`: a directly started executable or a Steam-tracked game. */
  datatype GameProcess = Direct(popen: Popen) | Steam(tracked: SteamTrackedProc)
  {
    /** The object the wrapper delegates to. */
    function Inner(): object
    {
      match this
      case Direct(p) => p
      case Steam(t) => t
    }

    /** The `pid` property: always known for a direct start, possibly not yet for Steam. */
    function Pid(): (r: Option<int>)
      reads Inner()
      ensures Direct? ==> r == Some(popen.pid)
      ensures Steam? ==> r == tracked.pid
    {
      match this
      case Direct(p) => Some(p.pid)
      case Steam(t) => t.pid
    }

    /** What `poll()` would return now: None while the game runs, an exit status once it has ended. */
    function Status(os: Os): Option<int>
      reads Inner(), os
    {
      match this
      case Direct(p) => p.Status(os)
      case Steam(t) => PollResult(t.State(), os.live)
    }

    /** `poll()`: delegates. */
    method Poll(os: Os) returns (code: Option<int>)
      modifies Inner()
      ensures code == old(Status(os))
      ensures Steam? ==> tracked.State() == PollState(old(tracked.State()), os.live)
      ensures Direct? ==> popen.returncode == code
    {
      match this
      case Direct(p) => code := p.Poll(os);
      case Steam(t) => code := t.Poll(os);
    }

    /** The requests `terminate()` sends. */
    function TerminateRequests(): seq<Request>
      reads Inner()
    {
      match this
      case Direct(p) => if p.returncode.None? then [TerminateProcess(p.pid)] else []
      case Steam(t) => KillRequests(t.State())
    }

    /** `terminate()`: delegates (the wrapper swallows errors; none are modelled). */
    method Terminate(os: Os)
      modifies Inner(), os`log
      ensures os.log == old(os.log) + old(TerminateRequests())
      ensures Steam? ==> tracked.State() == Terminated(old(tracked.State()))
      ensures Direct? ==> popen.Status(os) == old(popen.Status(os))
      ensures Direct? && old(popen.returncode).None? && !os.PidAlive(popen.pid) ==> popen.returncode == Some(os.ExitCode(popen.pid))
      ensures Direct? && (old(popen.returncode).Some? || os.PidAlive(popen.pid)) ==> popen.returncode == old(popen.returncode)
    {
      match this
      case Direct(p) => p.Terminate(os);
      case Steam(t) => t.Terminate(os);
    }
  }
}
