/**
 * `ProcessMonitorGUI` (src/main.py): the set of selected emulator processes,
 * the process table it renders, the stopped/monitoring switch, and one pass of
 * the worker's `monitor_images` loop.
 *
 * The widgets are reduced to what they hold: the tree's rows become a field,
 * a click arrives already resolved to region, column and row. The worker's
 * surroundings are parameters: the images folder listing, the stop flag as the
 * worker reads it before each image, the process lookup, the template search
 * and whether the kill call raises.
 */
module Monitor {
  import opened Wrappers
  import opened Text
  import opened Desktop
  import opened ProcessManager
  import Scanner

  // ---------------------------------------------------------------------------
  // Selection

  /** `pid in s` flips; every other pid keeps its membership. */
  function Toggle(s: set<int>, pid: int): (r: set<int>)
    ensures pid in r <==> pid !in s
    ensures forall q :: q != pid ==> (q in r <==> q in s)
  {
    if pid in s then s - {pid} else s + {pid}
  }

  /** A second toggle of the same pid restores the selection. */
  lemma ToggleTwice(s: set<int>, pid: int)
    ensures Toggle(Toggle(s, pid), pid) == s
  {
  }

  /** What `identify_row` found under the pointer: no item, an item without values, or a row with its pid. */
  datatype RowHit = NoItem | NoValues | RowValues(pid: int)

  /** A released left click, resolved by the tree into region, column and row. */
  datatype Click = Click(region: string, column: string, row: RowHit)

  /** The pid a click toggles: only a cell of the first column on a row that has values. */
  function ClickedPid(c: Click): Option<int>
  {
    if c.region == "cell" && c.column == "#1" && c.row.RowValues? then Some(c.row.pid) else None
  }

  /** The selection after `handle_click`. */
  function AfterClick(s: set<int>, c: Click): set<int>
  {
    match ClickedPid(c)
    case None => s
    case Some(pid) => Toggle(s, pid)
  }

  /**
   * A click changes the selection exactly when it lands on a cell of column
   * "#1" of a row with values, and then only that row's pid changes.
   */
  lemma ClickChangesSelectionIff(s: set<int>, c: Click)
    ensures AfterClick(s, c) != s <==> c.region == "cell" && c.column == "#1" && c.row.RowValues?
    ensures forall q :: (c.row.RowValues? ==> q != c.row.pid) ==> (q in AfterClick(s, c) <==> q in s)
  {
    if ClickedPid(c).Some? {
      var pid := c.row.pid;
      assert pid in AfterClick(s, c) <==> pid !in s;
    }
  }

  /** Clicking the same place twice gives back the selection. */
  lemma ClickTwiceRestores(s: set<int>, c: Click)
    ensures AfterClick(AfterClick(s, c), c) == s
  {
    if ClickedPid(c).Some? {
      ToggleTwice(s, c.row.pid);
    }
  }

  // ---------------------------------------------------------------------------
  // The process table

  const CheckMark := "\U{2713}"
  const NoMark := " "

  /** A tree row: the check column, pid, name and window title (CPU and memory are not modelled). */
  datatype TreeRow = TreeRow(check: string, pid: int, name: string, windowTitle: string)

  /** The row `update_process_list` inserts for one process. */
  function RowFor(selected: set<int>, p: ProcessRecord): TreeRow
  {
    TreeRow(if p.pid in selected then CheckMark else NoMark, p.pid, p.name, p.windowTitle)
  }

  /** The rows `update_process_list` inserts, one per listed process, in listing order. */
  function Render(selected: set<int>, processes: seq<ProcessRecord>): (r: seq<TreeRow>)
    ensures |r| == |processes|
  {
    if processes == [] then []
    else Render(selected, processes[..|processes| - 1]) + [RowFor(selected, processes[|processes| - 1])]
  }

  /** The check column shows the mark exactly on rows whose pid is selected, and a blank otherwise. */
  lemma {:induction false} RenderMarksSelection(selected: set<int>, processes: seq<ProcessRecord>)
    ensures |Render(selected, processes)| == |processes|
    ensures forall i :: 0 <= i < |processes| ==>
      && Render(selected, processes)[i] == RowFor(selected, processes[i])
      && Render(selected, processes)[i].pid == processes[i].pid
      && (Render(selected, processes)[i].check == CheckMark <==> processes[i].pid in selected)
      && (Render(selected, processes)[i].check == NoMark <==> processes[i].pid !in selected)
  {
    assert CheckMark != NoMark;
    if processes != [] {
      var p := processes[..|processes| - 1];
      RenderMarksSelection(selected, p);
      assert forall i :: 0 <= i < |p| ==> p[i] == processes[i];
    }
  }

  /** After a click on a row, the re-rendered table differs from before only in that pid's check marks. */
  lemma ClickFlipsOnlyItsMarks(s: set<int>, c: Click, processes: seq<ProcessRecord>)
    requires ClickedPid(c).Some?
    ensures forall i :: 0 <= i < |processes| ==>
      (Render(AfterClick(s, c), processes)[i].check != Render(s, processes)[i].check <==> processes[i].pid == c.row.pid)
  {
    RenderMarksSelection(s, processes);
    RenderMarksSelection(AfterClick(s, c), processes);
  }

  // ---------------------------------------------------------------------------
  // Starting and stopping

  /** What a press of the monitor button does. */
  datatype ToggleOutcome = Started | Warned | Stopped

  /** `toggle_monitoring`'s decision, from the switch and whether anything is selected. */
  function ToggleDecision(monitoring: bool, hasSelection: bool): ToggleOutcome
  {
    if !monitoring then (if hasSelection then Started else Warned) else Stopped
  }

  /** Whether the worker is meant to run after the outcome. */
  function MonitoringAfter(o: ToggleOutcome, monitoring: bool): bool
  {
    match o
    case Started => true
    case Warned => monitoring
    case Stopped => false
  }

  /**
   * The button flips the switch, except that a press while stopped with an
   * empty selection only warns; so monitoring never begins without a selection.
   */
  lemma ToggleDecisionFlipsUnlessEmpty(monitoring: bool, hasSelection: bool)
    ensures var o := ToggleDecision(monitoring, hasSelection);
      && (MonitoringAfter(o, monitoring) == monitoring <==> o == Warned)
      && (o == Warned <==> !monitoring && !hasSelection)
      && (MonitoringAfter(o, monitoring) && !monitoring ==> hasSelection)
  {
  }

  // ---------------------------------------------------------------------------
  // One pass of `monitor_images`

  /** `f.lower().endswith(('.png', '.jpg', '.jpeg'))`. */
  predicate IsImageFile(name: string)
  {
    var l := Lower(name);
    EndsWith(l, ".png") || EndsWith(l, ".jpg") || EndsWith(l, ".jpeg")
  }

  /** The list comprehension over the folder listing. */
  function ImageFiles(names: seq<string>): (r: seq<string>)
    ensures forall f :: f in r <==> f in names && IsImageFile(f)
  {
    if names == [] then []
    else (if IsImageFile(names[0]) then [names[0]] else []) + ImageFiles(names[1..])
  }

  /** The images folder: missing, present but not listable (the outer handler catches that), or its names. */
  datatype Folder = Missing | Unlistable | Listed(names: seq<string>)

  /** What the worker did, in order: a scan of an image in a window, a kill call, and an exception caught for an image. */
  datatype Event =
    | Scan(file: string, pid: int, title: string)
    | Kill(file: string, pid: int, name: string)
    | Abort(file: string, pid: int)

  /** Events so far, and whether the loop was left early. */
  datatype Run = Run(events: seq<Event>, stopped: bool)

  /** `if results:` — None and an empty list are both false. */
  predicate Confirmed(r: Scanner.FindResult)
  {
    r.Hits? && r.hits != []
  }

  /**
   * The body of the pid loop for one image. `lookup` is `get_process_info`,
   * `scan(file, title)` is `find_center` at confidence 0.8, and
   * `killRaises(info)` says whether the kill call raises; a raise ends the
   * loop (the Run is stopped).
   */
  function PidStep(file: string, pid: int, lookup: int -> Option<ProcessRecord>,
                   scan: (string, string) -> Scanner.FindResult, killRaises: ProcessRecord -> bool): Run
  {
    match lookup(pid)
    case None => Run([], false)
    case Some(info) =>
      if info.windowTitle == Unknown then Run([], false)
      else
        var scanned := [Scan(file, pid, info.windowTitle)];
        var found := scan(file, info.windowTitle);
        if found.Raised? then Run(scanned + [Abort(file, pid)], true)
        else if !Confirmed(found) then Run(scanned, false)
        else if killRaises(info) then Run(scanned + [Kill(file, pid, info.name), Abort(file, pid)], true)
        else Run(scanned + [Kill(file, pid, info.name)], false)
  }

  /** The `try` around the pid loop for one image: pids in order until one raises. */
  function FileRun(file: string, pids: seq<int>, lookup: int -> Option<ProcessRecord>,
                   scan: (string, string) -> Scanner.FindResult, killRaises: ProcessRecord -> bool): Run
  {
    if pids == [] then Run([], false)
    else
      var prev := FileRun(file, pids[..|pids| - 1], lookup, scan, killRaises);
      if prev.stopped then prev
      else
        var step := PidStep(file, pids[|pids| - 1], lookup, scan, killRaises);
        Run(prev.events + step.events, step.stopped)
  }

  /**
   * The loop over image files: before image `k` the stop flag is read as
   * `running(k)`, and a false flag leaves the loop (the Run is stopped). An
   * exception for one image never stops the loop.
   */
  function FilesRun(files: seq<string>, pids: seq<int>, running: nat -> bool, lookup: int -> Option<ProcessRecord>,
                    scan: (string, string) -> Scanner.FindResult, killRaises: ProcessRecord -> bool): Run
  {
    if files == [] then Run([], false)
    else
      var prev := FilesRun(files[..|files| - 1], pids, running, lookup, scan, killRaises);
      if prev.stopped then prev
      else if !running(|files| - 1) then Run(prev.events, true)
      else Run(prev.events + FileRun(files[|files| - 1], pids, lookup, scan, killRaises).events, false)
  }

  /** How a pass ends. */
  datatype Outcome = NoSelection | NoImageFolder | ListingFailed | NoImages | Interrupted | Completed

  datatype PassResult = PassResult(outcome: Outcome, events: seq<Event>)

  /** One iteration of the `while self.is_monitoring` loop, with `pids` the selection in iteration order. */
  function Pass(folder: Folder, pids: seq<int>, running: nat -> bool, lookup: int -> Option<ProcessRecord>,
                scan: (string, string) -> Scanner.FindResult, killRaises: ProcessRecord -> bool): PassResult
  {
    if pids == [] then PassResult(NoSelection, [])
    else match folder
      case Missing => PassResult(NoImageFolder, [])
      case Unlistable => PassResult(ListingFailed, [])
      case Listed(names) =>
        var files := ImageFiles(names);
        if files == [] then PassResult(NoImages, [])
        else
          var run := FilesRun(files, pids, running, lookup, scan, killRaises);
          PassResult(if run.stopped then Interrupted else Completed, run.events)
  }

  /** Why an event happened: each one follows from the lookup, the scan and the kill it records. */
  predicate Justified(e: Event, lookup: int -> Option<ProcessRecord>,
                      scan: (string, string) -> Scanner.FindResult, killRaises: ProcessRecord -> bool)
  {
    && lookup(e.pid).Some?
    && lookup(e.pid).value.windowTitle != Unknown
    && match e
       case Scan(f, p, t) => t == lookup(p).value.windowTitle
       case Kill(f, p, n) => n == lookup(p).value.name && Confirmed(scan(f, lookup(p).value.windowTitle))
       case Abort(f, p) =>
         var found := scan(f, lookup(p).value.windowTitle);
         found.Raised? || (Confirmed(found) && killRaises(lookup(p).value))
  }

  lemma {:induction false} FileRunEvents(file: string, pids: seq<int>, lookup: int -> Option<ProcessRecord>,
                                         scan: (string, string) -> Scanner.FindResult, killRaises: ProcessRecord -> bool)
    ensures forall e :: e in FileRun(file, pids, lookup, scan, killRaises).events ==>
      e.file == file && e.pid in pids && Justified(e, lookup, scan, killRaises)
  {
    if pids != [] {
      var p := pids[..|pids| - 1];
      FileRunEvents(file, p, lookup, scan, killRaises);
      assert forall q :: q in p ==> q in pids;
    }
  }

  /**
   * The converse of `FileRunEvents`: a pid the loop reaches, found with a
   * title other than "Unknown", is scanned in that title, and a non-empty
   * result is followed by its kill call, whether or not that call raises.
   */
  lemma {:induction false} FileRunVisitsReachedPids(file: string, pids: seq<int>, k: nat, lookup: int -> Option<ProcessRecord>,
                                                    scan: (string, string) -> Scanner.FindResult, killRaises: ProcessRecord -> bool)
    requires k < |pids| && !FileRun(file, pids[..k], lookup, scan, killRaises).stopped
    requires lookup(pids[k]).Some? && lookup(pids[k]).value.windowTitle != Unknown
    ensures var info := lookup(pids[k]).value;
      var events := FileRun(file, pids, lookup, scan, killRaises).events;
      && Scan(file, pids[k], info.windowTitle) in events
      && (Confirmed(scan(file, info.windowTitle)) ==> Kill(file, pids[k], info.name) in events)
  {
    var info := lookup(pids[k]).value;
    var p := pids[..|pids| - 1];
    var prev := FileRun(file, p, lookup, scan, killRaises);
    if k == |pids| - 1 {
      assert p == pids[..k];
      var step := PidStep(file, pids[k], lookup, scan, killRaises);
      assert Scan(file, pids[k], info.windowTitle) in step.events;
      assert Confirmed(scan(file, info.windowTitle)) ==> Kill(file, pids[k], info.name) in step.events;
      assert FileRun(file, pids, lookup, scan, killRaises).events == prev.events + step.events;
    } else {
      assert p[..k] == pids[..k] && p[k] == pids[k];
      FileRunVisitsReachedPids(file, p, k, lookup, scan, killRaises);
      var events := FileRun(file, pids, lookup, scan, killRaises).events;
      assert prev.events <= events;
    }
  }

  lemma {:induction false} FilesRunEvents(files: seq<string>, pids: seq<int>, running: nat -> bool,
                                          lookup: int -> Option<ProcessRecord>,
                                          scan: (string, string) -> Scanner.FindResult, killRaises: ProcessRecord -> bool)
    ensures forall e :: e in FilesRun(files, pids, running, lookup, scan, killRaises).events ==>
      e.file in files && e.pid in pids && Justified(e, lookup, scan, killRaises)
  {
    if files != [] {
      var p := files[..|files| - 1];
      FilesRunEvents(p, pids, running, lookup, scan, killRaises);
      FileRunEvents(files[|files| - 1], pids, lookup, scan, killRaises);
      assert forall f :: f in p ==> f in files;
    }
  }

  /**
   * Every event of a pass concerns an image file of the listing and a
   * selected pid. A scan happens only for a process the lookup found with a
   * title other than "Unknown", a kill only after a non-empty result, and an
   * abort only after the scan or the kill raised. With no selection, no
   * folder or no image file, nothing is scanned.
   */
  lemma PassEventsJustified(folder: Folder, pids: seq<int>, running: nat -> bool, lookup: int -> Option<ProcessRecord>,
                            scan: (string, string) -> Scanner.FindResult, killRaises: ProcessRecord -> bool)
    ensures var r := Pass(folder, pids, running, lookup, scan, killRaises);
      && (r.events != [] ==> folder.Listed? && pids != [] && ImageFiles(folder.names) != [])
      && forall e :: e in r.events ==>
           && folder.Listed? && e.file in folder.names && IsImageFile(e.file)
           && e.pid in pids && Justified(e, lookup, scan, killRaises)
  {
    if pids != [] && folder.Listed? {
      FilesRunEvents(ImageFiles(folder.names), pids, running, lookup, scan, killRaises);
    }
  }

  /** Once the pid loop has been left, later pids add nothing. */
  lemma {:induction false} FileRunStaysStopped(file: string, pids: seq<int>, k: nat, lookup: int -> Option<ProcessRecord>,
                                               scan: (string, string) -> Scanner.FindResult, killRaises: ProcessRecord -> bool)
    requires k <= |pids| && FileRun(file, pids[..k], lookup, scan, killRaises).stopped
    ensures FileRun(file, pids, lookup, scan, killRaises) == FileRun(file, pids[..k], lookup, scan, killRaises)
  {
    if k < |pids| {
      var p := pids[..|pids| - 1];
      assert p[..k] == pids[..k];
      FileRunStaysStopped(file, p, k, lookup, scan, killRaises);
    } else {
      assert pids[..k] == pids;
    }
  }

  /** Once the file loop has been left, later files add nothing. */
  lemma {:induction false} FilesRunStaysStopped(files: seq<string>, pids: seq<int>, k: nat, running: nat -> bool,
                                                lookup: int -> Option<ProcessRecord>,
                                                scan: (string, string) -> Scanner.FindResult, killRaises: ProcessRecord -> bool)
    requires k <= |files| && FilesRun(files[..k], pids, running, lookup, scan, killRaises).stopped
    ensures FilesRun(files, pids, running, lookup, scan, killRaises) == FilesRun(files[..k], pids, running, lookup, scan, killRaises)
  {
    if k < |files| {
      var p := files[..|files| - 1];
      assert p[..k] == files[..k];
      FilesRunStaysStopped(p, pids, k, running, lookup, scan, killRaises);
    } else {
      assert files[..k] == files;
    }
  }

  /**
   * An exception for the pid at position `k` abandons the pids after it for
   * that image: the image's events are those up to and including that pid's,
   * and none of them concerns a later pid.
   */
  lemma AbortAbandonsLaterPids(file: string, pids: seq<int>, k: nat, lookup: int -> Option<ProcessRecord>,
                               scan: (string, string) -> Scanner.FindResult, killRaises: ProcessRecord -> bool)
    requires k < |pids| && (forall i, j :: 0 <= i < j < |pids| ==> pids[i] != pids[j])
    requires !FileRun(file, pids[..k], lookup, scan, killRaises).stopped
    requires PidStep(file, pids[k], lookup, scan, killRaises).stopped
    ensures FileRun(file, pids, lookup, scan, killRaises) == FileRun(file, pids[..k + 1], lookup, scan, killRaises)
    ensures forall e :: e in FileRun(file, pids, lookup, scan, killRaises).events ==> e.pid !in pids[k + 1..]
  {
    assert pids[..k + 1][..k] == pids[..k];
    FileRunStaysStopped(file, pids, k + 1, lookup, scan, killRaises);
    FileRunEvents(file, pids[..k + 1], lookup, scan, killRaises);
    forall e | e in FileRun(file, pids, lookup, scan, killRaises).events
      ensures e.pid !in pids[k + 1..]
    {
      var i :| 0 <= i < k + 1 && pids[..k + 1][i] == e.pid;
    }
  }

  /** Every image's pid loop run in full, one image after another: the pass when the stop flag never falls. */
  function AllFiles(files: seq<string>, pids: seq<int>, lookup: int -> Option<ProcessRecord>,
                    scan: (string, string) -> Scanner.FindResult, killRaises: ProcessRecord -> bool): seq<Event>
  {
    if files == [] then []
    else FileRun(files[0], pids, lookup, scan, killRaises).events + AllFiles(files[1..], pids, lookup, scan, killRaises)
  }

  lemma {:induction false} AllFilesAppend(files: seq<string>, f: string, pids: seq<int>, lookup: int -> Option<ProcessRecord>,
                                          scan: (string, string) -> Scanner.FindResult, killRaises: ProcessRecord -> bool)
    ensures AllFiles(files + [f], pids, lookup, scan, killRaises)
         == AllFiles(files, pids, lookup, scan, killRaises) + FileRun(f, pids, lookup, scan, killRaises).events
  {
    if files == [] {
      assert ([f])[1..] == [];
    } else {
      assert (files + [f])[1..] == files[1..] + [f];
      AllFilesAppend(files[1..], f, pids, lookup, scan, killRaises);
    }
  }

  /**
   * The stop flag is read only before each image: with `k` the first image
   * before which it is false (or the number of images), the pass runs every
   * image before `k` in full, whatever was raised for earlier images, and is
   * interrupted exactly when `k` is an image.
   */
  lemma {:induction false} StopCheckedBeforeEachImage(files: seq<string>, pids: seq<int>, k: nat, running: nat -> bool,
                                                      lookup: int -> Option<ProcessRecord>,
                                                      scan: (string, string) -> Scanner.FindResult, killRaises: ProcessRecord -> bool)
    requires k <= |files| && (forall j :: 0 <= j < k ==> running(j)) && (k < |files| ==> !running(k))
    ensures FilesRun(files, pids, running, lookup, scan, killRaises)
         == Run(AllFiles(files[..k], pids, lookup, scan, killRaises), k < |files|)
  {
    if k == |files| {
      RunsAllWhileRunning(files, pids, running, lookup, scan, killRaises);
      assert files[..k] == files;
    } else {
      var p := files[..k];
      RunsAllWhileRunning(p, pids, running, lookup, scan, killRaises);
      assert p[..k] == p;
      assert files[..k + 1][..k] == p;
      FilesRunStaysStopped(files, pids, k + 1, running, lookup, scan, killRaises);
    }
  }

  /** While the flag stays set, every image runs in full, one after another. */
  lemma {:induction false} RunsAllWhileRunning(files: seq<string>, pids: seq<int>, running: nat -> bool,
                                               lookup: int -> Option<ProcessRecord>,
                                               scan: (string, string) -> Scanner.FindResult, killRaises: ProcessRecord -> bool)
    requires forall j :: 0 <= j < |files| ==> running(j)
    ensures FilesRun(files, pids, running, lookup, scan, killRaises) == Run(AllFiles(files, pids, lookup, scan, killRaises), false)
  {
    if files != [] {
      var p := files[..|files| - 1];
      RunsAllWhileRunning(p, pids, running, lookup, scan, killRaises);
      AllFilesAppend(p, files[|files| - 1], pids, lookup, scan, killRaises);
      assert p + [files[|files| - 1]] == files;
    }
  }

  // ---------------------------------------------------------------------------
  // The kill call at src/main.py:204

  /**
   * `ProcessManager.kill_process_by_name(name)`, as called: the class defines
   * no such attribute, so the call raises AttributeError for every process.
   */
  predicate KillByNameRaises(info: ProcessRecord)
  {
    true
  }

  /** `ProcessManager.kill_process(pid)`: it catches every exception and reports failure as False, so it never raises. */
  predicate KillProcessRaises(info: ProcessRecord)
  {
    false
  }

  function TwoEmulators(pid: int): Option<ProcessRecord>
  {
    if pid == 1 then Some(ProcessRecord(1, "dnplayer", "LDPlayer-0"))
    else if pid == 2 then Some(ProcessRecord(2, "dnplayer", "LDPlayer-1"))
    else None
  }

  function AlwaysFound(file: string, title: string): Scanner.FindResult
  {
    Scanner.Hits([Scanner.Hit(title, Scanner.Point(0, 0))])
  }

  /**
   * As written: two selected emulators both show the image, yet after the
   * first one's kill raises, the second one is neither scanned nor killed.
   */
  lemma KillByNameAbandonsLaterPids()
    ensures FileRun("a.png", [1, 2], TwoEmulators, AlwaysFound, KillByNameRaises).events
         == [Scan("a.png", 1, "LDPlayer-0"), Kill("a.png", 1, "dnplayer"), Abort("a.png", 1)]
    ensures Scan("a.png", 2, "LDPlayer-1") !in FileRun("a.png", [1, 2], TwoEmulators, AlwaysFound, KillByNameRaises).events
  {
    assert [1, 2][..1] == [1];
    assert [1][..0] == [];
    var first := FileRun("a.png", [1], TwoEmulators, AlwaysFound, KillByNameRaises);
    assert first == PidStep("a.png", 1, TwoEmulators, AlwaysFound, KillByNameRaises);
    assert first.stopped;
  }

  /**
   * As written, for every input: a kill is always the image's last action but
   * for the exception it raises, so no image ever sees a second kill, and an
   * image whose pid loop completes saw no kill at all.
   */
  lemma {:induction false} KillByNameEndsImage(file: string, pids: seq<int>, lookup: int -> Option<ProcessRecord>,
                                               scan: (string, string) -> Scanner.FindResult)
    ensures var run := FileRun(file, pids, lookup, scan, KillByNameRaises);
      && (forall i :: 0 <= i < |run.events| && run.events[i].Kill? ==>
            i == |run.events| - 2 && run.events[i + 1] == Abort(file, run.events[i].pid))
      && (!run.stopped ==> forall e :: e in run.events ==> !e.Kill?)
  {
    if pids != [] {
      var prefix := pids[..|pids| - 1];
      KillByNameEndsImage(file, prefix, lookup, scan);
    }
  }

  /**
   * Corrected: with a kill that cannot raise, and scans that do not raise,
   * every selected pid with a known window is scanned for the image, and
   * killed whenever the image is found in its window.
   */
  lemma {:induction false} KillProcessVisitsEveryPid(file: string, pids: seq<int>, lookup: int -> Option<ProcessRecord>,
                                                     scan: (string, string) -> Scanner.FindResult)
    requires forall t :: !scan(file, t).Raised?
    ensures !FileRun(file, pids, lookup, scan, KillProcessRaises).stopped
    ensures forall p :: p in pids && lookup(p).Some? && lookup(p).value.windowTitle != Unknown ==>
      var info := lookup(p).value;
      && Scan(file, p, info.windowTitle) in FileRun(file, pids, lookup, scan, KillProcessRaises).events
      && (Confirmed(scan(file, info.windowTitle)) ==> Kill(file, p, info.name) in FileRun(file, pids, lookup, scan, KillProcessRaises).events)
  {
    if pids != [] {
      var prefix, last := pids[..|pids| - 1], pids[|pids| - 1];
      KillProcessVisitsEveryPid(file, prefix, lookup, scan);
      var step := PidStep(file, last, lookup, scan, KillProcessRaises);
      assert !step.stopped;
      assert FileRun(file, pids, lookup, scan, KillProcessRaises).events
          == FileRun(file, prefix, lookup, scan, KillProcessRaises).events + step.events;
      assert forall p :: p in pids ==> p in prefix || p == last;
    }
  }

  /**
   * Corrected, for any scans: with a kill that cannot raise, the pid loop is
   * left only at a pid it reached, found with a known window, whose scan
   * raised. With `FileRunVisitsReachedPids`, every pid before that one is
   * scanned and killed when the image is found.
   */
  lemma {:induction false} KillProcessStopsOnlyOnRaisedScan(file: string, pids: seq<int>, lookup: int -> Option<ProcessRecord>,
                                                            scan: (string, string) -> Scanner.FindResult)
    requires FileRun(file, pids, lookup, scan, KillProcessRaises).stopped
    ensures exists k ::
      && 0 <= k < |pids|
      && !FileRun(file, pids[..k], lookup, scan, KillProcessRaises).stopped
      && lookup(pids[k]).Some? && lookup(pids[k]).value.windowTitle != Unknown
      && scan(file, lookup(pids[k]).value.windowTitle).Raised?
  {
    var k := |pids| - 1;
    var prefix := pids[..k];
    if FileRun(file, prefix, lookup, scan, KillProcessRaises).stopped {
      KillProcessStopsOnlyOnRaisedScan(file, prefix, lookup, scan);
      var j :|
        && 0 <= j < |prefix|
        && !FileRun(file, prefix[..j], lookup, scan, KillProcessRaises).stopped
        && lookup(prefix[j]).Some? && lookup(prefix[j]).value.windowTitle != Unknown
        && scan(file, lookup(prefix[j]).value.windowTitle).Raised?;
      assert prefix[..j] == pids[..j] && prefix[j] == pids[j];
    } else {
      assert PidStep(file, pids[k], lookup, scan, KillProcessRaises).stopped;
    }
  }

  // ---------------------------------------------------------------------------
  // The controller

  /** A sequence that enumerates a set is empty exactly when the set is. */
  lemma SelectionOrder(pids: seq<int>, s: set<int>)
    requires forall p :: p in pids <==> p in s
    ensures s == {} <==> pids == []
  {
    if pids != [] {
      var first := pids[0];
      assert first in pids;
      assert first in s;
    } else {
      assert forall p :: p !in s;
    }
  }


  /** The scan of one image for every pid: the `try` block around the pid loop. */
  method ScanImage(file: string, pids: seq<int>, lookup: int -> Option<ProcessRecord>,
                   scan: (string, string) -> Scanner.FindResult, killRaises: ProcessRecord -> bool) returns (run: Run)
    ensures run == FileRun(file, pids, lookup, scan, killRaises)
  {
    var events: seq<Event> := [];
    var j := 0;
    while j < |pids|
      invariant 0 <= j <= |pids|
      invariant FileRun(file, pids[..j], lookup, scan, killRaises) == Run(events, false)
    {
      assert pids[..j + 1][..j] == pids[..j];
      var pid := pids[j];
      var info := lookup(pid);
      if info.Some? && info.value.windowTitle != Unknown {
        var title := info.value.windowTitle;
        events := events + [Scan(file, pid, title)];
        var results := scan(file, title);
        if results.Raised? {
          events := events + [Abort(file, pid)];
          FileRunStaysStopped(file, pids, j + 1, lookup, scan, killRaises);
          return Run(events, true);
        }
        if results.Hits? && results.hits != [] {
          events := events + [Kill(file, pid, info.value.name)];
          if killRaises(info.value) {
            events := events + [Abort(file, pid)];
            FileRunStaysStopped(file, pids, j + 1, lookup, scan, killRaises);
            return Run(events, true);
          }
        }
      }
      j := j + 1;
    }
    assert pids[..|pids|] == pids;
    return Run(events, false);
  }

  class Monitor {
    /** `selected_processes`. */
    var selected: set<int>
    /** `is_monitoring`. */
    var isMonitoring: bool
    /** Whether `monitor_thread` has been set. */
    var hasThread: bool
    /** How many worker threads have been started. */
    var threadsStarted: nat
    /** The tree's rows. */
    var rows: seq<TreeRow>

    ghost predicate Valid()
      reads this
    {
      (isMonitoring ==> hasThread) && (hasThread <==> threadsStarted > 0)
    }

    /** `__init__`: nothing selected, stopped, no worker, and the table loaded once. */
    constructor(entries: seq<ProcessEntry>, windows: seq<WindowRecord>)
      ensures Valid()
      ensures selected == {} && !isMonitoring && !hasThread && threadsStarted == 0
      ensures rows == Render({}, Listing(entries, windows))
    {
      selected := {};
      isMonitoring := false;
      hasThread := false;
      threadsStarted := 0;
      new;
      UpdateProcessList(entries, windows);
    }

    /** `update_process_list`: the rows are replaced by the current listing, marked by the selection. */
    method UpdateProcessList(entries: seq<ProcessEntry>, windows: seq<WindowRecord>)
      requires Valid()
      modifies this`rows
      ensures Valid()
      ensures rows == Render(selected, Listing(entries, windows))
    {
      var processes := GetProcessList(entries, windows);
      var table: seq<TreeRow> := [];
      for i := 0 to |processes|
        invariant table == Render(selected, processes[..i])
      {
        var p := processes[i];
        assert processes[..i + 1][..i] == processes[..i];
        var check := if p.pid in selected then CheckMark else NoMark;
        table := table + [TreeRow(check, p.pid, p.name, p.windowTitle)];
      }
      assert processes[..|processes|] == processes;
      rows := table;
    }

    /** `handle_click`: a click on the check column of a row toggles its pid and redraws the table. */
    method HandleClick(c: Click, entries: seq<ProcessEntry>, windows: seq<WindowRecord>)
      requires Valid()
      modifies this`selected, this`rows
      ensures Valid()
      ensures selected == AfterClick(old(selected), c)
      ensures ClickedPid(c).Some? ==> rows == Render(selected, Listing(entries, windows))
      ensures ClickedPid(c).None? ==> rows == old(rows)
    {
      if c.region == "cell" {
        if c.column == "#1" && !c.row.NoItem? {
          if c.row.RowValues? {
            var pid := c.row.pid;
            if pid in selected {
              selected := selected - {pid};
            } else {
              selected := selected + {pid};
            }
            UpdateProcessList(entries, windows);
          }
        }
      }
    }

    /** `start_monitoring`: when stopped, set the switch and start one worker; otherwise nothing. */
    method StartMonitoring()
      requires Valid()
      modifies this`isMonitoring, this`hasThread, this`threadsStarted
      ensures Valid() && isMonitoring && hasThread
      ensures threadsStarted == if old(isMonitoring) then old(threadsStarted) else old(threadsStarted) + 1
      ensures old(isMonitoring) ==> hasThread == old(hasThread)
    {
      if !isMonitoring {
        isMonitoring := true;
        hasThread := true;
        threadsStarted := threadsStarted + 1;
      }
    }

    /** `stop_monitoring`: the switch is cleared; the worker sees it before its next image. */
    method StopMonitoring()
      requires Valid()
      modifies this`isMonitoring
      ensures Valid() && !isMonitoring
    {
      isMonitoring := false;
    }

    /** `toggle_monitoring`: start with a selection, warn without one, stop when running. */
    method ToggleMonitoring() returns (o: ToggleOutcome)
      requires Valid()
      modifies this`isMonitoring, this`hasThread, this`threadsStarted
      ensures Valid()
      ensures o == ToggleDecision(old(isMonitoring), selected != {})
      ensures isMonitoring == MonitoringAfter(o, old(isMonitoring))
      ensures threadsStarted == if o == Started then old(threadsStarted) + 1 else old(threadsStarted)
    {
      if !isMonitoring {
        if selected != {} {
          StartMonitoring();
          o := Started;
        } else {
          o := Warned;
        }
      } else {
        StopMonitoring();
        o := Stopped;
      }
    }

    /**
     * One pass of `monitor_images`, with `pids` the selection in the order the
     * set is iterated.
     */
    method MonitorImagesPass(folder: Folder, pids: seq<int>, running: nat -> bool, lookup: int -> Option<ProcessRecord>,
                             scan: (string, string) -> Scanner.FindResult, killRaises: ProcessRecord -> bool)
      returns (outcome: Outcome, events: seq<Event>)
      requires forall p :: p in pids <==> p in selected
      requires forall i, j :: 0 <= i < j < |pids| ==> pids[i] != pids[j]
      ensures PassResult(outcome, events) == Pass(folder, pids, running, lookup, scan, killRaises)
    {
      SelectionOrder(pids, selected);
      if selected == {} {
        return NoSelection, [];
      }
      match folder {
        case Missing =>
          return NoImageFolder, [];
        case Unlistable =>
          return ListingFailed, [];
        case Listed(names) =>
          var files := ImageFiles(names);
          if files == [] {
            return NoImages, [];
          }
          events := [];
          var k := 0;
          while k < |files|
            invariant 0 <= k <= |files|
            invariant FilesRun(files[..k], pids, running, lookup, scan, killRaises) == Run(events, false)
          {
            assert files[..k + 1][..k] == files[..k];
            if !running(k) {
              FilesRunStaysStopped(files, pids, k + 1, running, lookup, scan, killRaises);
              return Interrupted, events;
            }
            var run := ScanImage(files[k], pids, lookup, scan, killRaises);
            events := events + run.events;
            k := k + 1;
          }
          assert files[..|files|] == files;
          return Completed, events;
      }
    }
  }
}
