/**
 * The operating-system facilities the process manager calls: the process
 * table (which PIDs are alive, with what exit status ended ones finished),
 * the file system (which paths exist), and the requests the launcher sends
 * (start a process, open a URI, kill a process tree, kill by image name,
 * terminate a directly started process).
 *
 * The OS is an object: its answers are its fields and every request the
 * launcher sends is appended to `log`, so a contract can say exactly which
 * requests an operation issued and in which order.
 */
module Platform {
  import opened Wrappers

  /** A request sent to the OS. */
  datatype Request =
    | Spawn(argv: seq<string>, cwd: Option<string>)  // subprocess.Popen(argv, cwd=cwd)
    | OpenUri(uri: string)                            // os.startfile(uri)
    | KillTree(pid: int)                              // taskkill /PID pid /T /F
    | KillImage(image: string)                        // taskkill /IM image /T /F
    | TerminateProcess(pid: int)                      // Popen.terminate()

  class Os {
    /** The PIDs of the processes that currently exist. */
    var live: set<int>
    /** The exit status of processes that have ended. */
    var exitCodes: map<int, int>
    /** The paths that exist on disk. */
    var files: set<string>
    /** The answers to the coming process-start requests, in order: the new PID, or None when the start raises. */
    var answers: seq<Option<int>>
    /** Whether the shell can open a `steam://` URI. */
    var uriHandler: bool
    /** Every request sent so far, oldest first. */
    var log: seq<Request>

    constructor (live: set<int>, files: set<string>, answers: seq<Option<int>>, uriHandler: bool)
      ensures this.live == live && exitCodes == map[] && this.files == files
      ensures this.answers == answers && this.uriHandler == uriHandler && log == []
    {
      this.live := live;
      this.exitCodes := map[];
      this.files := files;
      this.answers := answers;
      this.uriHandler := uriHandler;
      this.log := [];
    }

    /** `_pid_alive(pid)`: the PID names an existing process. */
    predicate PidAlive(pid: int)
      reads this
    {
      pid in live
    }

    /** The exit status the OS reports for an ended process (0 when it recorded none). */
    function ExitCode(pid: int): int
      reads this
    {
      if pid in exitCodes then exitCodes[pid] else 0
    }

    /** `Path(p).exists()`. */
    predicate Exists(path: string)
      reads this
    {
      path in files
    }

    /** The answer the next process-start request will get. */
    function NextAnswer(): Option<int>
      reads this
    {
      FirstAnswer(answers)
    }

    /**
     * `subprocess.Popen(argv, cwd=cwd)`: takes the next answer; a started
     * process is alive from then on. No answers left means the start fails.
     */
    method Spawn(argv: seq<string>, cwd: Option<string>) returns (pid: Option<int>)
      modifies this`answers, this`log, this`live
      ensures pid == old(NextAnswer())
      ensures answers == LaterAnswers(old(answers))
      ensures log == old(log) + [Request.Spawn(argv, cwd)]
      ensures live == if pid.Some? then old(live) + {pid.value} else old(live)
    {
      pid := NextAnswer();
      answers := LaterAnswers(answers);
      log := log + [Request.Spawn(argv, cwd)];
      if pid.Some? {
        live := live + {pid.value};
      }
    }

    /** `os.startfile(uri)`: succeeds when a handler for the URI is registered. */
    method StartFile(uri: string) returns (ok: bool)
      modifies this`log
      ensures ok == uriHandler
      ensures log == old(log) + [OpenUri(uri)]
    {
      log := log + [OpenUri(uri)];
      ok := uriHandler;
    }

    /** `_kill_tree(pid)`: best effort, never fails. */
    method KillTree(pid: int)
      modifies this`log
      ensures log == old(log) + [Request.KillTree(pid)]
    {
      log := log + [Request.KillTree(pid)];
    }

    /** `_taskkill_image(name)`: nothing is sent for an empty name. */
    method TaskkillImage(name: string)
      modifies this`log
      ensures log == old(log) + ImageKill(name)
    {
      if name != "" {
        log := log + [KillImage(name)];
      }
    }

    /** `Popen.terminate()` on a directly started process. */
    method Terminate(pid: int)
      modifies this`log
      ensures log == old(log) + [TerminateProcess(pid)]
    {
      log := log + [TerminateProcess(pid)];
    }
  }

  /** The answer the next process start gets from the pending `answers`: failure once they are used up. */
  function FirstAnswer(answers: seq<Option<int>>): Option<int>
  {
    if answers == [] then None else answers[0]
  }

  /** The answers left after one process start. */
  function LaterAnswers(answers: seq<Option<int>>): seq<Option<int>>
  {
    if answers == [] then [] else answers[1..]
  }

  /** The requests `_taskkill_image(name)` sends. */
  function ImageKill(name: string): seq<Request>
  {
    if name == "" then [] else [KillImage(name)]
  }
}
