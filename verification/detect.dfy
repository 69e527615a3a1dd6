/**
 * Locating the game process a Steam launch started (process_manager.py):
 * the image-name snapshot parsed from `tasklist /FO CSV /NH`, the
 * memory-ranking detector over process records (`_detect_proc_psutil`) and
 * the snapshot-diff detector (`_detect_proc_tasklist`).
 *
 * Time is in integer milliseconds. Each detector's wall-clock timeout is
 * modelled by the sequence of snapshots it gets to see: one element per
 * poll cycle that starts before the deadline.
 */
module Detect {
  import opened Wrappers
  import opened Text

  /** `_STEAM_SUPPORT_PROCS`: processes Steam starts that are never the game. */
  const SupportProcs: set<string> := {
    "steam.exe",
    "steamwebhelper.exe",
    "crashhandler.exe",
    "vrcompositor.exe",
    "vrserver.exe",
    "vrmonitor.exe",
    "steamerrorreporter.exe",
    "steamservice.exe",
    "eac_launcherv2.exe",
    "eac_launcher.exe",
    "start_protected_game.exe",
    "battleyelauncher.exe",
    "steamvr_desktop_game_theater.exe",
    "steamtours.exe"
  }

  // ===========================================================================
  // _tasklist_images: the CSV output of `tasklist /FO CSV /NH`
  // ===========================================================================

  /** The line boundaries of Python's `str.splitlines()`. */
  const LineBreaks: set<char> := {
    '\n', '\r', '\U{0B}', '\U{0C}', '\U{1C}', '\U{1D}', '\U{1E}', '\U{85}', '\U{2028}', '\U{2029}'
  }

  /**
   * The lines of `out`, cut at every line-boundary character. Where
   * `splitlines()` treats "\r\n" as one boundary, or drops a final empty
   * line, this yields an extra empty line; empty lines are skipped below,
   * so the image set is the same.
   */
  function Lines(out: string): seq<string>
  {
    Split(out, LineBreaks)
  }

  /** `not line.strip()`. */
  predicate IsBlank(line: string)
  {
    Strip(line) == []
  }

  /**
   * The image name of one CSV row: its first comma-separated field, with
   * whitespace and then surrounding double quotes stripped, lower-cased.
   */
  function ImageOf(line: string): (r: string)
    ensures NoUpper(r)
  {
    Lower(StripChars(Strip(Split(line, {','})[0]), {'"'}))
  }

  /** The image names of the non-blank lines among `lines`. */
  function ImagesOf(lines: seq<string>): set<string>
    decreases |lines|
  {
    if lines == [] then {}
    else
      var line := lines[|lines| - 1];
      ImagesOf(lines[..|lines| - 1]) + if IsBlank(line) then {} else {ImageOf(line)}
  }

  /** At most one name is collected per line. */
  lemma {:induction false} ImagesOfBound(lines: seq<string>)
    ensures |ImagesOf(lines)| <= |lines|
    decreases |lines|
  {
    if lines != [] {
      ImagesOfBound(lines[..|lines| - 1]);
    }
  }

  /** A name is collected exactly when some non-blank line carries it. */
  lemma ImagesOfMembers(lines: seq<string>, x: string)
    ensures x in ImagesOf(lines) <==> exists i :: 0 <= i < |lines| && !IsBlank(lines[i]) && ImageOf(lines[i]) == x
  {
    if x in ImagesOf(lines) {
      var i := ImagesOfWitness(lines, x);
    }
    if exists i :: 0 <= i < |lines| && !IsBlank(lines[i]) && ImageOf(lines[i]) == x {
      var i :| 0 <= i < |lines| && !IsBlank(lines[i]) && ImageOf(lines[i]) == x;
      ImagesOfCollects(lines, i);
    }
  }

  /** Every collected name comes from a non-blank line. */
  lemma {:induction false} ImagesOfWitness(lines: seq<string>, x: string) returns (i: int)
    requires x in ImagesOf(lines)
    ensures 0 <= i < |lines| && !IsBlank(lines[i]) && ImageOf(lines[i]) == x
    decreases |lines|
  {
    var n := |lines| - 1;
    if x in ImagesOf(lines[..n]) {
      i := ImagesOfWitness(lines[..n], x);
      assert lines[..n][i] == lines[i];
    } else {
      i := n;
    }
  }

  /** The name of every non-blank line is collected. */
  lemma {:induction false} ImagesOfCollects(lines: seq<string>, i: int)
    requires 0 <= i < |lines| && !IsBlank(lines[i])
    ensures ImageOf(lines[i]) in ImagesOf(lines)
    decreases |lines|
  {
    var n := |lines| - 1;
    var front := lines[..n];
    assert ImagesOf(front) <= ImagesOf(lines);
    if i < n {
      ImagesOfCollects(front, i);
      assert front[i] == lines[i];
    }
  }

  /** Reading one more line adds its image, unless it is blank. */
  lemma ImagesOfStep(lines: seq<string>, k: int)
    requires 0 <= k < |lines|
    ensures ImagesOf(lines[..k + 1]) == ImagesOf(lines[..k]) + if IsBlank(lines[k]) then {} else {ImageOf(lines[k])}
  {
    assert lines[..k + 1][..k] == lines[..k];
  }

  /** The set `_tasklist_images` builds from the command's output; None stands for a failing command. It is empty exactly when the command failed or printed only blank lines. */
  function ImageSet(out: Option<string>): (r: set<string>)
    ensures r == {} <==> out.None? || forall i :: 0 <= i < |Lines(out.value)| ==> IsBlank(Lines(out.value)[i])
  {
    match out
    case None => {}
    case Some(text) => ImagesOfEmpty(Lines(text)); ImagesOf(Lines(text))
  }

  /** No name is collected exactly when every line is blank. */
  lemma ImagesOfEmpty(lines: seq<string>)
    ensures ImagesOf(lines) == {} <==> forall i :: 0 <= i < |lines| ==> IsBlank(lines[i])
  {
    if ImagesOf(lines) != {} {
      var x :| x in ImagesOf(lines);
      var i := ImagesOfWitness(lines, x);
    } else {
      forall i | 0 <= i < |lines| ensures IsBlank(lines[i]) {
        if !IsBlank(lines[i]) {
          ImagesOfCollects(lines, i);
        }
      }
    }
  }

  /** `_tasklist_images()`, given what `tasklist` printed (None when the command failed). */
  method TasklistImages(out: Option<string>) returns (imgs: set<string>)
    ensures imgs == ImageSet(out)
  {
    if out.None? {
      return {};
    }
    var lines := Lines(out.value);
    imgs := {};
    for k := 0 to |lines|
      invariant imgs == ImagesOf(lines[..k])
    {
      ImagesOfStep(lines, k);
      var line := lines[k];
      if IsBlank(line) {
        continue;
      }
      imgs := imgs + {ImageOf(line)};
    }
    assert lines[..|lines|] == lines;
  }

  /** Every name in the snapshot is lower-case. */
  lemma ImageSetClean(out: Option<string>, x: string)
    requires x in ImageSet(out)
    ensures NoUpper(x)
  {
    var lines := Lines(out.value);
    ImagesOfMembers(lines, x);
  }

  /** A name `tasklist` can print as the first field of a row. */
  predicate PlainImage(n: string)
  {
    && NoUpper(n)
    && NoneIn(n, {',', '"'})
    && NoneIn(n, LineBreaks)
    && (n == [] || (n[0] !in WhiteSpace && n[|n| - 1] !in WhiteSpace))
  }

  /** One row as `tasklist /FO CSV /NH` prints it: the quoted image name, a comma, the other fields. */
  function Row(n: string, fields: string): string
  {
    ['"'] + n + ['"', ','] + fields
  }

  /** A whole `tasklist` output: one row per name, each ended by a newline. */
  function Render(names: seq<string>, fields: string): string
  {
    if names == [] then "" else Row(names[0], fields) + ['\n'] + Render(names[1..], fields)
  }

  /** Cutting a rendered output into lines gives back the rows, and one empty line after the last newline. */
  lemma {:induction false} LinesOfRender(names: seq<string>, fields: string)
    requires forall i :: 0 <= i < |names| ==> PlainImage(names[i])
    requires NoneIn(fields, LineBreaks)
    ensures Lines(Render(names, fields)) == seq(|names|, i requires 0 <= i < |names| => Row(names[i], fields)) + [""]
    decreases |names|
  {
    if names != [] {
      var row := Row(names[0], fields);
      assert NoneIn(row, LineBreaks) by {
        forall i | 0 <= i < |row| ensures row[i] !in LineBreaks {
          if 1 <= i < 1 + |names[0]| {
            assert row[i] == names[0][i - 1];
          } else if i >= |names[0]| + 3 {
            assert row[i] == fields[i - |names[0]| - 3];
          }
        }
      }
      SplitAtSeparator(row, '\n', Render(names[1..], fields), LineBreaks);
      LinesOfRender(names[1..], fields);
    }
  }

  /** The image name read back from a row is the name that was printed. */
  lemma ImageOfRow(n: string, fields: string)
    requires PlainImage(n)
    ensures !IsBlank(Row(n, fields))
    ensures ImageOf(Row(n, fields)) == n
  {
    var quoted := RowFirstField(n, fields);
    StripCharsUnchanged(quoted, WhiteSpace);
    StripCharsOfSurrounded(['"'], n, ['"'], {'"'});
    LowerFixedPoint(n);
    BlankIsAllSpace(Row(n, fields));
    assert Row(n, fields)[0] !in WhiteSpace;
  }

  /** The first comma-separated field of a row is the quoted name, with no whitespace around it. */
  lemma RowFirstField(n: string, fields: string) returns (quoted: string)
    requires PlainImage(n)
    ensures quoted == ['"'] + n + ['"'] && Split(Row(n, fields), {','})[0] == quoted
    ensures quoted != [] && quoted[0] !in WhiteSpace && quoted[|quoted| - 1] !in WhiteSpace
  {
    quoted := ['"'] + n + ['"'];
    assert Row(n, fields) == quoted + [','] + fields;
    assert NoneIn(quoted, {','}) by {
      forall i | 0 <= i < |quoted| ensures quoted[i] != ',' {
        if 0 < i <= |n| {
          assert quoted[i] == n[i - 1];
        }
      }
    }
    SplitAtSeparator(quoted, ',', fields, {','});
  }

  /** Parsing a rendered `tasklist` output yields exactly the names printed. */
  lemma ImageSetOfRender(names: seq<string>, fields: string)
    requires forall i :: 0 <= i < |names| ==> PlainImage(names[i])
    requires NoneIn(fields, LineBreaks)
    ensures ImageSet(Some(Render(names, fields))) == set n | n in names
  {
    var lines := Lines(Render(names, fields));
    LinesOfRender(names, fields);
    assert |lines| == |names| + 1;
    assert forall i :: 0 <= i < |names| ==> lines[i] == Row(names[i], fields);
    assert lines[|names|] == "";
    forall x | x in ImagesOf(lines) ensures x in names {
      ImagesOfMembers(lines, x);
      var i :| 0 <= i < |lines| && !IsBlank(lines[i]) && ImageOf(lines[i]) == x;
      assert i != |names|;
      ImageOfRow(names[i], fields);
    }
    forall x | x in names ensures x in ImagesOf(lines) {
      var i :| 0 <= i < |names| && names[i] == x;
      ImageOfRow(names[i], fields);
      ImagesOfMembers(lines, x);
    }
  }

  // ===========================================================================
  // _detect_proc_psutil: rank recently created processes by resident memory
  // ===========================================================================

  /** One entry of `psutil.process_iter`; None is a field psutil could not read. */
  datatype ProcInfo = ProcInfo(pid: int, name: Option<string>, createTime: Option<int>, rss: Option<nat>)

  /** The creation-time grace window, in milliseconds (0.5 s). */
  const GraceMs: int := 500

  /** `(p.info.get("name") or "").lower()`. */
  function NameOf(p: ProcInfo): string
  {
    Lower(if p.name.Some? then p.name.value else "")
  }

  /** `p.info.get("create_time") or 0`. */
  function CreatedAt(p: ProcInfo): int
  {
    if p.createTime.Some? then p.createTime.value else 0
  }

  /** `getattr(mi, "rss", 0) or 0`. */
  function RssOf(p: ProcInfo): nat
  {
    if p.rss.Some? then p.rss.value else 0
  }

  /**
   * A process survives the three filters: an ".exe" image, not a Steam
   * helper, created no more than 0.5 s before `t0`. A process whose name
   * psutil could not read is never one.
   */
  predicate IsCandidate(p: ProcInfo, t0: int)
    ensures IsCandidate(p, t0) ==> p.name.Some? && |NameOf(p)| >= 4 && NoUpper(NameOf(p))
  {
    && EndsWith(NameOf(p), ".exe")
    && NameOf(p) !in SupportProcs
    && CreatedAt(p) + GraceMs >= t0
  }

  /** The running choice `best_pid, best_name, best_rss`. */
  datatype Best = Best(pid: int, name: string, rss: int)

  const NoBest: Best := Best(0, "", 0)

  /** The choice recording process `p`. */
  function Record(p: ProcInfo): Best
  {
    Best(p.pid, NameOf(p), RssOf(p))
  }

  /** One iteration of the enumeration: a candidate using at least as much memory replaces the choice; the kept memory never drops. */
  function Visit(b: Best, p: ProcInfo, t0: int): (r: Best)
    ensures r.rss >= b.rss
    ensures r != b ==> IsCandidate(p, t0) && r == Record(p)
  {
    if IsCandidate(p, t0) && RssOf(p) >= b.rss then Record(p) else b
  }

  /**
   * One poll cycle over an enumeration, starting from the choice `b`
   * carried over from earlier cycles: it keeps `b` or records one of the
   * cycle's candidates, and the kept memory never drops.
   */
  function ScanCycle(b: Best, procs: seq<ProcInfo>, t0: int): (r: Best)
    ensures r.rss >= b.rss
    ensures r == b || exists i :: 0 <= i < |procs| && IsCandidate(procs[i], t0) && r == Record(procs[i])
    decreases |procs|
  {
    if procs == [] then b
    else
      var front := procs[..|procs| - 1];
      var r' := ScanCycle(b, front, t0);
      assert r' != b ==> exists i :: 0 <= i < |procs| && IsCandidate(procs[i], t0) && r' == Record(procs[i]) by {
        if r' != b {
          var i :| 0 <= i < |front| && IsCandidate(front[i], t0) && r' == Record(front[i]);
          assert front[i] == procs[i];
        }
      }
      Visit(r', procs[|procs| - 1], t0)
  }

  /** Some candidate uses at least `floor` bytes. */
  predicate HasCandidate(procs: seq<ProcInfo>, t0: int, floor: int)
  {
    exists j :: 0 <= j < |procs| && IsCandidate(procs[j], t0) && RssOf(procs[j]) >= floor
  }

  /**
   * Index `i` is the last candidate of greatest memory, and uses at least
   * `floor`: no candidate uses more, and every later candidate uses less.
   */
  predicate LastMax(procs: seq<ProcInfo>, t0: int, floor: int, i: int)
  {
    && 0 <= i < |procs|
    && IsCandidate(procs[i], t0)
    && RssOf(procs[i]) >= floor
    && (forall j :: 0 <= j < |procs| && IsCandidate(procs[j], t0) ==> RssOf(procs[j]) <= RssOf(procs[i]))
    && (forall j :: i < j < |procs| && IsCandidate(procs[j], t0) ==> RssOf(procs[j]) < RssOf(procs[i]))
  }

  /**
   * A poll cycle picks the last-enumerated candidate among those of greatest
   * memory (the `>=` comparison), provided it reaches the carried-over
   * `best_rss`; otherwise it keeps the carried-over choice.
   */
  lemma {:induction false} ScanCycleLastMax(b: Best, procs: seq<ProcInfo>, t0: int)
    ensures HasCandidate(procs, t0, b.rss) ==>
      exists i :: LastMax(procs, t0, b.rss, i) && ScanCycle(b, procs, t0) == Record(procs[i])
    ensures !HasCandidate(procs, t0, b.rss) ==> ScanCycle(b, procs, t0) == b
    decreases |procs|
  {
    if procs != [] {
      var n := |procs| - 1;
      var front, last := procs[..n], procs[n];
      assert procs == front + [last];
      ScanCycleLastMax(b, front, t0);
      var r' := ScanCycle(b, front, t0);
      var wins := IsCandidate(last, t0) && RssOf(last) >= r'.rss;
      assert ScanCycle(b, procs, t0) == if wins then Record(last) else r';
      if HasCandidate(front, t0, b.rss) {
        var i' :| LastMax(front, t0, b.rss, i') && r' == Record(front[i']);
        if wins {
          LastMaxAppendWinner(front, last, t0, b.rss, RssOf(front[i']));
          assert LastMax(procs, t0, b.rss, n);
        } else {
          LastMaxAppendLoser(front, last, t0, b.rss, i');
          assert LastMax(procs, t0, b.rss, i');
        }
      } else if wins {
        LastMaxAppendWinner(front, last, t0, b.rss, b.rss);
        assert LastMax(procs, t0, b.rss, n);
      } else {
        NoCandidateAppend(front, last, t0, b.rss);
      }
    }
  }

  /** An appended candidate that uses at least as much as every earlier candidate is the new last maximum. */
  lemma LastMaxAppendWinner(front: seq<ProcInfo>, last: ProcInfo, t0: int, floor: int, top: int)
    requires IsCandidate(last, t0) && RssOf(last) >= top >= floor
    requires forall j :: 0 <= j < |front| && IsCandidate(front[j], t0) ==> RssOf(front[j]) <= top || RssOf(front[j]) < floor
    ensures LastMax(front + [last], t0, floor, |front|)
  {
    var procs := front + [last];
    forall j | 0 <= j < |procs| && IsCandidate(procs[j], t0) ensures RssOf(procs[j]) <= RssOf(last) {
      if j < |front| {
        assert procs[j] == front[j];
      }
    }
  }

  /** An appended process that does not beat the last maximum leaves it in place. */
  lemma LastMaxAppendLoser(front: seq<ProcInfo>, last: ProcInfo, t0: int, floor: int, i: int)
    requires LastMax(front, t0, floor, i)
    requires !(IsCandidate(last, t0) && RssOf(last) >= RssOf(front[i]))
    ensures LastMax(front + [last], t0, floor, i)
  {
    var procs := front + [last];
    assert procs[i] == front[i];
    forall j | 0 <= j < |procs| && IsCandidate(procs[j], t0) ensures RssOf(procs[j]) <= RssOf(procs[i]) {
      if j < |front| {
        assert procs[j] == front[j];
      }
    }
    forall j | i < j < |procs| && IsCandidate(procs[j], t0) ensures RssOf(procs[j]) < RssOf(procs[i]) {
      if j < |front| {
        assert procs[j] == front[j];
      }
    }
  }

  /** Appending a process that is no candidate above `floor` keeps there being none. */
  lemma NoCandidateAppend(front: seq<ProcInfo>, last: ProcInfo, t0: int, floor: int)
    requires !HasCandidate(front, t0, floor)
    requires !(IsCandidate(last, t0) && RssOf(last) >= floor)
    ensures !HasCandidate(front + [last], t0, floor)
  {
    var procs := front + [last];
    forall j | 0 <= j < |procs| && IsCandidate(procs[j], t0) ensures RssOf(procs[j]) < floor {
      if j < |front| {
        assert procs[j] == front[j];
      }
    }
  }

  /**
   * A first poll cycle yields `(0, "")` when nothing survives the filters, and
   * otherwise the last-enumerated of the candidates using the most memory.
   */
  lemma FirstCycleChoice(procs: seq<ProcInfo>, t0: int)
    ensures (forall j :: 0 <= j < |procs| ==> !IsCandidate(procs[j], t0)) ==> ScanCycle(NoBest, procs, t0) == NoBest
    ensures (exists j :: 0 <= j < |procs| && IsCandidate(procs[j], t0)) ==>
      exists i :: LastMax(procs, t0, 0, i) && ScanCycle(NoBest, procs, t0) == Record(procs[i])
  {
    ScanCycleLastMax(NoBest, procs, t0);
  }

  /**
   * The poll cycles until one ends with a non-zero `best_pid`; `(0, "")`
   * when the cycles run out. Starting without a choice, a detected name is
   * an ".exe" that is not a Steam helper.
   */
  function PsutilWalk(b: Best, cycles: seq<seq<ProcInfo>>, t0: int): (r: (int, string))
    ensures r.0 == 0 ==> r.1 == ""
    ensures b.pid == 0 && r.0 != 0 ==> EndsWith(r.1, ".exe") && r.1 !in SupportProcs
    decreases |cycles|
  {
    if cycles == [] then (0, "")
    else
      var b' := ScanCycle(b, cycles[0], t0);
      if b'.pid != 0 then (b'.pid, b'.name) else PsutilWalk(b', cycles[1..], t0)
  }

  /** What `_detect_proc_psutil(t0, timeout)` returns when the poll cycles before the timeout enumerate `cycles`. */
  function PsutilDetect(psutilPresent: bool, t0: int, cycles: seq<seq<ProcInfo>>): (int, string)
  {
    if psutilPresent then PsutilWalk(NoBest, cycles, t0) else (0, "")
  }

  /** Enumerating one more process visits it. */
  lemma ScanCycleStep(b: Best, procs: seq<ProcInfo>, t0: int, i: int)
    requires 0 <= i < |procs|
    ensures ScanCycle(b, procs[..i + 1], t0) == Visit(ScanCycle(b, procs[..i], t0), procs[i], t0)
  {
    assert procs[..i + 1][..i] == procs[..i];
  }

  /** One poll cycle of `_detect_proc_psutil`: the `process_iter` loop, carrying `(best_pid, best_name, best_rss)` over from `start`. */
  method PollCycle(start: Best, procs: seq<ProcInfo>, t0: int) returns (best: Best)
    ensures best == ScanCycle(start, procs, t0)
  {
    var bestPid, bestName, bestRss := start.pid, start.name, start.rss;
    for i := 0 to |procs|
      invariant Best(bestPid, bestName, bestRss) == ScanCycle(start, procs[..i], t0)
    {
      ScanCycleStep(start, procs, t0, i);
      var p := procs[i];
      var pname := NameOf(p);
      if !EndsWith(pname, ".exe") {
        continue;
      }
      if pname in SupportProcs {
        continue;
      }
      var ctime := CreatedAt(p);
      if ctime + GraceMs < t0 {
        continue;
      }
      var rss := RssOf(p);
      if rss >= bestRss {
        bestPid := p.pid;
        bestName := pname;
        bestRss := rss;
      }
    }
    assert procs[..|procs|] == procs;
    best := Best(bestPid, bestName, bestRss);
  }

  /** `_detect_proc_psutil`: `psutilPresent` is the import-time `PS_OK`, `cycles` the enumeration seen by each poll cycle. */
  method DetectPsutil(psutilPresent: bool, t0: int, cycles: seq<seq<ProcInfo>>) returns (pid: int, name: string)
    ensures (pid, name) == PsutilDetect(psutilPresent, t0, cycles)
  {
    if !psutilPresent {
      return 0, "";
    }
    var best := NoBest;
    var c := 0;
    while c < |cycles|
      invariant 0 <= c <= |cycles|
      invariant PsutilWalk(NoBest, cycles, t0) == PsutilWalk(best, cycles[c..], t0)
    {
      best := PollCycle(best, cycles[c], t0);
      if best.pid != 0 {
        return best.pid, best.name;
      }
      assert cycles[c..][1..] == cycles[c + 1..];
      c := c + 1;
    }
    return 0, "";
  }

  /**
   * A detection result is either `(0, "")` or the PID and lower-cased name
   * of a candidate seen in one of the poll cycles; when no cycle holds a
   * candidate (for instance when every new process is a Steam helper) it
   * is `(0, "")`.
   */
  lemma PsutilWalkFindsCandidate(b: Best, cycles: seq<seq<ProcInfo>>, t0: int)
    requires b.pid == 0
    ensures var r := PsutilWalk(b, cycles, t0);
      r.0 != 0 ==>
        exists c, i :: 0 <= c < |cycles| && 0 <= i < |cycles[c]| &&
          IsCandidate(cycles[c][i], t0) && r == (cycles[c][i].pid, NameOf(cycles[c][i]))
    ensures PsutilWalk(b, cycles, t0).0 == 0 ==> PsutilWalk(b, cycles, t0).1 == ""
    ensures (forall c, i :: 0 <= c < |cycles| && 0 <= i < |cycles[c]| ==> !IsCandidate(cycles[c][i], t0))
      ==> PsutilWalk(b, cycles, t0) == (0, "")
  {
    var c, i := PsutilWalkLastMax(b, cycles, t0);
  }

  /** The choice `(best_pid, best_name, best_rss)` carried out of the poll cycles `cycles`, starting from `b`. */
  function Carried(b: Best, cycles: seq<seq<ProcInfo>>, t0: int): Best
    decreases |cycles|
  {
    if cycles == [] then b else Carried(ScanCycle(b, cycles[0], t0), cycles[1..], t0)
  }

  /** Carrying the choice through the first `n` cycles scans the first one, then carries through the rest. */
  lemma CarriedFirst(b: Best, cycles: seq<seq<ProcInfo>>, t0: int, n: int)
    requires 1 <= n <= |cycles|
    ensures Carried(b, cycles[..n], t0) == Carried(ScanCycle(b, cycles[0], t0), cycles[1..][..n - 1], t0)
  {
    assert cycles[..n][0] == cycles[0];
    assert cycles[..n][1..] == cycles[1..][..n - 1];
  }

  /**
   * The walk settles in the first cycle `c` after which the carried choice
   * has a PID: every earlier cycle ended with PID 0, and the result is the
   * last-enumerated candidate of greatest memory in cycle `c`, at or above
   * the `best_rss` carried out of the cycles before it. When no cycle ends
   * with a PID the result is `(0, "")`.
   */
  predicate SettlesAt(b: Best, cycles: seq<seq<ProcInfo>>, t0: int, c: int, i: int)
  {
    var r := PsutilWalk(b, cycles, t0);
    && (r.0 != 0 ==>
          && 0 <= c < |cycles|
          && (forall k :: 0 < k <= c ==> Carried(b, cycles[..k], t0).pid == 0)
          && LastMax(cycles[c], t0, Carried(b, cycles[..c], t0).rss, i)
          && r == (cycles[c][i].pid, NameOf(cycles[c][i])))
    && (r.0 == 0 ==> r == (0, "") && forall k :: 0 < k <= |cycles| ==> Carried(b, cycles[..k], t0).pid == 0)
  }

  /**
   * The `_detect_proc_psutil` walk, started without a choice, settles as
   * `SettlesAt` describes: in cycle `c` on its last maximum `i`, relative to
   * the `best_rss` carried over from the earlier cycles, or on `(0, "")`.
   */
  lemma {:induction false} PsutilWalkLastMax(b: Best, cycles: seq<seq<ProcInfo>>, t0: int) returns (c: int, i: int)
    requires b.pid == 0
    ensures var r := PsutilWalk(b, cycles, t0);
      r.0 != 0 ==>
        && 0 <= c < |cycles|
        && (forall k :: 0 < k <= c ==> Carried(b, cycles[..k], t0).pid == 0)
        && LastMax(cycles[c], t0, Carried(b, cycles[..c], t0).rss, i)
        && r == (cycles[c][i].pid, NameOf(cycles[c][i]))
    ensures var r := PsutilWalk(b, cycles, t0);
      r.0 == 0 ==> r == (0, "") && forall k :: 0 < k <= |cycles| ==> Carried(b, cycles[..k], t0).pid == 0
    decreases |cycles|
  {
    c, i := 0, 0;
    if cycles != [] {
      var b' := ScanCycle(b, cycles[0], t0);
      if b'.pid != 0 {
        i := SettlesInFirst(b, cycles, t0);
      } else {
        var c', i' := PsutilWalkLastMax(b', cycles[1..], t0);
        SettlesLater(b, cycles, t0, c', i');
        c, i := c' + 1, i';
      }
      assert SettlesAt(b, cycles, t0, c, i);
    }
  }

  /** A first cycle that ends with a PID settles the walk on its last maximum. */
  lemma SettlesInFirst(b: Best, cycles: seq<seq<ProcInfo>>, t0: int) returns (i: int)
    requires b.pid == 0
    requires cycles != [] && ScanCycle(b, cycles[0], t0).pid != 0
    ensures SettlesAt(b, cycles, t0, 0, i)
  {
    var b' := ScanCycle(b, cycles[0], t0);
    ScanCycleLastMax(b, cycles[0], t0);
    assert HasCandidate(cycles[0], t0, b.rss);
    i :| LastMax(cycles[0], t0, b.rss, i) && b' == Record(cycles[0][i]);
    assert Carried(b, cycles[..0], t0) == b;
    assert PsutilWalk(b, cycles, t0) == (b'.pid, b'.name);
  }

  /** A first cycle that ends without a PID passes its choice on: the walk settles one cycle later than on the rest. */
  lemma SettlesLater(b: Best, cycles: seq<seq<ProcInfo>>, t0: int, c: int, i: int)
    requires cycles != [] && ScanCycle(b, cycles[0], t0).pid == 0
    requires SettlesAt(ScanCycle(b, cycles[0], t0), cycles[1..], t0, c, i)
    ensures SettlesAt(b, cycles, t0, c + 1, i)
  {
    var b' := ScanCycle(b, cycles[0], t0);
    forall k | 0 < k <= |cycles| ensures Carried(b, cycles[..k], t0) == Carried(b', cycles[1..][..k - 1], t0) {
      CarriedFirst(b, cycles, t0, k);
    }
    if PsutilWalk(b, cycles, t0).0 != 0 {
      assert cycles[1..][c] == cycles[c + 1];
    }
  }

  /** A detected image name is never a Steam helper and always ends in ".exe"; `(0, "")` is the only result without a PID. */
  lemma PsutilDetectSound(psutilPresent: bool, t0: int, cycles: seq<seq<ProcInfo>>)
    ensures var r := PsutilDetect(psutilPresent, t0, cycles);
      (r.0 == 0 ==> r.1 == "") && (r.0 != 0 ==> EndsWith(r.1, ".exe") && r.1 !in SupportProcs)
  {
    PsutilWalkFindsCandidate(NoBest, cycles, t0);
  }

  /** The grace window: a process created 0.6 s before the launch is ignored, one created 0.4 s before is eligible. */
  lemma GraceWindowExample(t0: int)
    ensures !IsCandidate(ProcInfo(7, Some("Game.exe"), Some(t0 - 600), Some(1)), t0)
    ensures IsCandidate(ProcInfo(7, Some("Game.exe"), Some(t0 - 400), Some(1)), t0)
  {
    assert NameOf(ProcInfo(7, Some("Game.exe"), Some(t0 - 600), Some(1))) == "game.exe";
  }

  // ===========================================================================
  // _detect_proc_tasklist: diff two image-name snapshots
  // ===========================================================================

  /** The names that would be an installer, updater or launcher rather than the game. */
  predicate InstallerLike(n: string)
  {
    Contains(n, "launcher") || Contains(n, "setup") || Contains(n, "updater") || Contains(n, "install")
  }

  /** The names that end in ".exe". */
  function ExeOnly(names: set<string>): set<string>
  {
    set n | n in names && EndsWith(n, ".exe")
  }

  /** The names that are not Steam helpers. */
  function NoHelpers(names: set<string>): set<string>
  {
    set n | n in names && n !in SupportProcs
  }

  /** `new`: images present now and not in the baseline, ending in ".exe", not Steam helpers. */
  function NewImages(baseline: set<string>, now: set<string>): set<string>
  {
    NoHelpers(ExeOnly(now - baseline))
  }

  /** A name is new exactly when it appeared since the baseline, is an ".exe" and is not a Steam helper. */
  lemma NewImagesMembers(baseline: set<string>, now: set<string>, n: string)
    ensures n in NewImages(baseline, now) <==> n in now && n !in baseline && EndsWith(n, ".exe") && n !in SupportProcs
  {
  }

  /** `prefer`: the new images that do not look like an installer, updater or launcher. */
  function Preferred(names: set<string>): set<string>
  {
    set n | n in names && !InstallerLike(n)
  }

  /** A set with one element is that element's singleton. */
  lemma SingletonOf(s: set<string>, x: string)
    requires |s| == 1 && x in s
    ensures s == {x}
  {
    var rest := s - {x};
    assert |rest| == 0;
  }

  /** A set with one element has no two different elements. */
  lemma SingletonUnique(s: set<string>)
    requires |s| == 1
    ensures forall x, y :: x in s && y in s ==> x == y
  {
    forall x, y | x in s && y in s ensures x == y {
      SingletonOf(s, x);
    }
  }

  /** `next(iter(s))` on a one-element set. */
  function TheOne(s: set<string>): (x: string)
    requires |s| == 1
    ensures s == {x}
  {
    SingletonUnique(s);
    var x :| x in s;
    x
  }

  /**
   * One poll cycle of the diff detector: the image it settles on, if any. A
   * pick is a new image, and when several images are new it is one that
   * does not look like an installer, updater or launcher.
   */
  function DiffPick(baseline: set<string>, now: set<string>): (r: Option<string>)
    ensures r.Some? ==> r.value in NewImages(baseline, now)
    ensures r.Some? && |NewImages(baseline, now)| > 1 ==> !InstallerLike(r.value)
  {
    var added := NewImages(baseline, now);
    if |added| == 1 then Some(TheOne(added))
    else if |added| > 1 && |Preferred(added)| == 1 then Some(TheOne(Preferred(added)))
    else None
  }

  /**
   * A cycle settles on `x` exactly when `x` is the only new image, or when
   * there are several and `x` is the only one that does not look like an
   * installer, updater or launcher.
   */
  lemma DiffPickIff(baseline: set<string>, now: set<string>, x: string)
    ensures DiffPick(baseline, now) == Some(x) <==>
      NewImages(baseline, now) == {x} || (|NewImages(baseline, now)| > 1 && Preferred(NewImages(baseline, now)) == {x})
  {
  }

  /** A picked image appeared since the baseline, is an ".exe" and is not a Steam helper. */
  lemma DiffPickSound(baseline: set<string>, now: set<string>)
    ensures DiffPick(baseline, now).Some? ==>
      var x := DiffPick(baseline, now).value;
      x in now && x !in baseline && EndsWith(x, ".exe") && x !in SupportProcs
  {
    var added := NewImages(baseline, now);
    if |added| == 1 {
      assert TheOne(added) in added;
    } else if |added| > 1 && |Preferred(added)| == 1 {
      assert TheOne(Preferred(added)) in added;
    }
  }

  /** With nothing new since the baseline the cycle finds nothing. */
  lemma DiffPickNothingNew(baseline: set<string>, now: set<string>)
    requires now <= baseline
    ensures DiffPick(baseline, now) == None
  {
    assert NewImages(baseline, now) == {};
  }

  /** The worked case: two new images, the updater is set aside, the game is found. */
  lemma DiffPickExample()
    ensures DiffPick({"a.exe", "b.exe"}, {"a.exe", "b.exe", "c.exe", "updater.exe"}) == Some("c.exe")
  {
    ExampleNewImages();
    ExamplePreferred();
    var added: set<string> := {"c.exe", "updater.exe"};
    assert "c.exe" != "updater.exe";
    assert |added| == 2;
    assert TheOne({"c.exe"}) == "c.exe";
  }

  /** In the worked case both new names survive the ".exe" and helper filters. */
  lemma ExampleNewImages()
    ensures NewImages({"a.exe", "b.exe"}, {"a.exe", "b.exe", "c.exe", "updater.exe"}) == {"c.exe", "updater.exe"}
  {
    var now: set<string> := {"a.exe", "b.exe", "c.exe", "updater.exe"};
    var added := now - {"a.exe", "b.exe"};
    assert added == {"c.exe", "updater.exe"};
    assert EndsWith("c.exe", ".exe");
    assert EndsWith("updater.exe", ".exe");
    assert ExeOnly(added) == added;
    assert "c.exe" !in SupportProcs && "updater.exe" !in SupportProcs;
  }

  /** In the worked case only the updater looks like an installer. */
  lemma ExamplePreferred()
    ensures Preferred({"c.exe", "updater.exe"}) == {"c.exe"}
  {
    UpdaterLooksLikeInstaller();
    GameLooksLikeGame();
  }

  /** "updater.exe" starts with "updater". */
  lemma UpdaterLooksLikeInstaller()
    ensures InstallerLike("updater.exe")
  {
    assert StartsWith("updater.exe", "updater");
  }

  /** "c.exe" has none of the four installer words: none of their first letters occurs in it. */
  lemma GameLooksLikeGame()
    ensures !InstallerLike("c.exe")
  {
    ContainsNeedsFirstChar("c.exe", "launcher");
    ContainsNeedsFirstChar("c.exe", "updater");
    ContainsNeedsFirstChar("c.exe", "install");
    ContainsNeedsFirstChar("c.exe", "setup");
  }

  /** What each poll cycle of the diff detector settles on. */
  function Picks(baseline: set<string>, outputs: seq<Option<string>>): (r: seq<Option<string>>)
    ensures |r| == |outputs|
  {
    seq(|outputs|, i requires 0 <= i < |outputs| => DiffPick(baseline, ImageSet(outputs[i])))
  }

  /** The first settled image of a sequence of cycles; "" when none settles. */
  function FirstSome(picks: seq<Option<string>>): string
  {
    if picks == [] then ""
    else match picks[0]
      case Some(x) => x
      case None => FirstSome(picks[1..])
  }

  /** The index of the first settled cycle (`|picks|` when there is none), and its image. */
  lemma {:induction false} FirstSomeIndex(picks: seq<Option<string>>) returns (c: int)
    ensures 0 <= c <= |picks|
    ensures forall d :: 0 <= d < c ==> picks[d] == None
    ensures c < |picks| ==> picks[c] == Some(FirstSome(picks))
    ensures c == |picks| ==> FirstSome(picks) == ""
    decreases |picks|
  {
    if picks == [] || picks[0].Some? {
      return 0;
    }
    var c' := FirstSomeIndex(picks[1..]);
    c := c' + 1;
    assert forall d :: 1 <= d < c ==> picks[d] == picks[1..][d - 1];
  }

  /** The poll cycles of the diff detector until one settles on an image; "" when they run out. A found image is a new ".exe" that is not a Steam helper. */
  function TasklistWalk(baseline: set<string>, outputs: seq<Option<string>>): (r: string)
    ensures r != "" ==> r !in baseline && EndsWith(r, ".exe") && r !in SupportProcs
  {
    FirstPickSound(baseline, outputs);
    FirstSome(Picks(baseline, outputs))
  }

  /** The first settled image is a new image of its cycle. */
  lemma FirstPickSound(baseline: set<string>, outputs: seq<Option<string>>)
    ensures var r := FirstSome(Picks(baseline, outputs));
      r != "" ==> r !in baseline && EndsWith(r, ".exe") && r !in SupportProcs
  {
    var picks := Picks(baseline, outputs);
    var c := FirstSomeIndex(picks);
    if c < |picks| {
      assert picks[c] == DiffPick(baseline, ImageSet(outputs[c]));
    }
  }

  /** `_detect_proc_tasklist(baseline, timeout)`: `outputs` is what `tasklist` printed in each poll cycle before the timeout. */
  method DetectTasklist(baseline: set<string>, outputs: seq<Option<string>>) returns (found: string)
    ensures found == TasklistWalk(baseline, outputs)
  {
    ghost var picks := Picks(baseline, outputs);
    var c := 0;
    while c < |outputs|
      invariant 0 <= c <= |outputs|
      invariant FirstSome(picks) == FirstSome(picks[c..])
    {
      var now := TasklistImages(outputs[c]);
      ghost var pick := DiffPick(baseline, now);
      assert pick == picks[c];
      assert picks[c..][0] == picks[c] && picks[c..][1..] == picks[c + 1..];
      var added := now - baseline;
      added := ExeOnly(added);
      added := NoHelpers(added);
      if |added| == 1 {
        return TheOne(added);
      }
      if |added| > 1 {
        var prefer := Preferred(added);
        if |prefer| == 1 {
          return TheOne(prefer);
        }
      }
      c := c + 1;
    }
    return "";
  }

  /**
   * The diff detector returns the pick of the first cycle that settles on an
   * image, and "" exactly when no cycle does: a picked image is never "".
   * `c` is that cycle, or `|outputs|` when there is none.
   */
  lemma TasklistWalkFirstPick(baseline: set<string>, outputs: seq<Option<string>>) returns (c: int)
    ensures 0 <= c <= |outputs|
    ensures forall d :: 0 <= d < c ==> DiffPick(baseline, ImageSet(outputs[d])) == None
    ensures c < |outputs| ==> DiffPick(baseline, ImageSet(outputs[c])) == Some(TasklistWalk(baseline, outputs))
    ensures TasklistWalk(baseline, outputs) == "" <==> c == |outputs|
  {
    var picks := Picks(baseline, outputs);
    c := FirstSomeIndex(picks);
    forall d | 0 <= d < c ensures DiffPick(baseline, ImageSet(outputs[d])) == None {
      assert picks[d] == None;
    }
    if c < |outputs| {
      assert picks[c] == DiffPick(baseline, ImageSet(outputs[c]));
      DiffPickSound(baseline, ImageSet(outputs[c]));
    }
  }
}
