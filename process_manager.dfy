/**
 * `ProcessManager` (src/process_manager.py): the emulator processes the monitor
 * lists, and the lookup of one process by pid.
 *
 * The process table and the window enumeration are inputs. A process entry
 * gives its pid and the outcome of reading its name, which psutil may refuse
 * with one of its three exceptions.
 */
module ProcessManager {
  import opened Wrappers
  import opened Text
  import opened Desktop

  datatype PsutilError = NoSuchProcess | AccessDenied | ZombieProcess

  datatype NameRead = Name(name: string) | Raises(error: PsutilError)

  /** One process, in `psutil.process_iter()` order. */
  datatype ProcessEntry = ProcessEntry(pid: int, read: NameRead)

  /** The dictionary both operations build: pid, name without ".exe", window title. */
  datatype ProcessRecord = ProcessRecord(pid: int, name: string, windowTitle: string)

  /** The title reported for a process that owns no emulator window. */
  const Unknown := "Unknown"

  /** `'dnplayer' in name.lower()`. */
  predicate IsEmulatorName(name: string)
  {
    Contains(Lower(name), "dnplayer")
  }

  // ---------------------------------------------------------------------------
  // get_window_title(pid)

  /** The callback's test: a visible window of `pid` whose title starts with "LDPlayer-". */
  predicate OwnsLdWindow(w: WindowRecord, pid: int)
  {
    w.visible && w.pid == pid && IsLdTitle(w.title)
  }

  /** The titles the callback appends, in enumeration order. */
  function OwnedLdTitles(windows: seq<WindowRecord>, pid: int): seq<string>
  {
    if windows == [] then []
    else
      var w := windows[|windows| - 1];
      OwnedLdTitles(windows[..|windows| - 1], pid) + (if OwnsLdWindow(w, pid) then [w.title] else [])
  }

  /**
   * No title is collected exactly when the process owns no "LDPlayer-…"
   * window, and the first one collected is that of the first such window.
   */
  lemma {:induction false} OwnedLdTitlesFirst(windows: seq<WindowRecord>, pid: int)
    ensures var r := OwnedLdTitles(windows, pid);
      && (r == [] <==> forall i :: 0 <= i < |windows| ==> !OwnsLdWindow(windows[i], pid))
      && (r != [] ==> exists k :: 0 <= k < |windows| && OwnsLdWindow(windows[k], pid) && r[0] == windows[k].title
                                  && forall j :: 0 <= j < k ==> !OwnsLdWindow(windows[j], pid))
  {
    if windows != [] {
      var prefix := windows[..|windows| - 1];
      OwnedLdTitlesFirst(prefix, pid);
      assert forall i :: 0 <= i < |prefix| ==> prefix[i] == windows[i];
    }
  }

  /** `titles[0] if titles else "Unknown"`. */
  function WindowTitle(windows: seq<WindowRecord>, pid: int): string
  {
    var titles := OwnedLdTitles(windows, pid);
    if titles == [] then Unknown else titles[0]
  }

  /**
   * The title is the first visible window of the process whose title starts
   * with "LDPlayer-", and "Unknown" exactly when there is none; no other
   * window's title is ever reported.
   */
  lemma WindowTitleIsFirstOwnedLdTitle(windows: seq<WindowRecord>, pid: int)
    ensures var t := WindowTitle(windows, pid);
      && (t == Unknown <==> forall i :: 0 <= i < |windows| ==> !OwnsLdWindow(windows[i], pid))
      && (t != Unknown ==> IsLdTitle(t))
      && (t != Unknown ==> exists k :: 0 <= k < |windows| && OwnsLdWindow(windows[k], pid) && t == windows[k].title
                                     && forall j :: 0 <= j < k ==> !OwnsLdWindow(windows[j], pid))
  {
    OwnedLdTitlesFirst(windows, pid);
    var titles := OwnedLdTitles(windows, pid);
    if titles != [] {
      var k :| 0 <= k < |windows| && OwnsLdWindow(windows[k], pid) && titles[0] == windows[k].title;
      assert |Unknown| < |LdPrefix|;
    }
  }

  lemma {:induction false} OwnedLdTitlesAppend(a: seq<WindowRecord>, b: seq<WindowRecord>, pid: int)
    ensures OwnedLdTitles(a + b, pid) == OwnedLdTitles(a, pid) + OwnedLdTitles(b, pid)
    decreases |b|
  {
    if b == [] {
      assert a + b == a;
    } else {
      var b', w := b[..|b| - 1], b[|b| - 1];
      var extra := if OwnsLdWindow(w, pid) then [w.title] else [];
      assert (a + b)[..|a + b| - 1] == a + b';
      assert (a + b)[|a + b| - 1] == w;
      OwnedLdTitlesAppend(a, b', pid);
      assert OwnedLdTitles(a + b, pid) == OwnedLdTitles(a + b', pid) + extra;
      assert OwnedLdTitles(b, pid) == OwnedLdTitles(b', pid) + extra;
    }
  }

  /** A window that is hidden, belongs to another process or is not titled "LDPlayer-…" never affects the title. */
  lemma OtherWindowsIgnored(a: seq<WindowRecord>, w: WindowRecord, b: seq<WindowRecord>, pid: int)
    requires !OwnsLdWindow(w, pid)
    ensures WindowTitle(a + [w] + b, pid) == WindowTitle(a + b, pid)
  {
    OwnedLdTitlesAppend(a + [w], b, pid);
    OwnedLdTitlesAppend(a, [w], pid);
    OwnedLdTitlesAppend(a, b, pid);
    assert [w][..0] == [];
    assert OwnedLdTitles(a, pid) + [] == OwnedLdTitles(a, pid);
  }

  /** One more window in the enumeration adds its title exactly when the process owns it. */
  lemma OwnedLdTitlesStep(windows: seq<WindowRecord>, i: nat, pid: int)
    requires i < |windows|
    ensures OwnedLdTitles(windows[..i + 1], pid)
         == OwnedLdTitles(windows[..i], pid) + (if OwnsLdWindow(windows[i], pid) then [windows[i].title] else [])
  {
    var p := windows[..i + 1];
    assert p[..|p| - 1] == windows[..i] && p[|p| - 1] == windows[i];
  }

  /** `get_window_title(pid)`: the callback appends each matching title, then the first is taken. */
  method CollectWindowTitle(windows: seq<WindowRecord>, pid: int) returns (title: string)
    ensures title == WindowTitle(windows, pid)
  {
    var titles: seq<string> := [];
    for i := 0 to |windows|
      invariant titles == OwnedLdTitles(windows[..i], pid)
    {
      var w := windows[i];
      OwnedLdTitlesStep(windows, i, pid);
      if w.visible && w.pid == pid {
        if StartsWith(w.title, LdPrefix) {
          titles := titles + [w.title];
        }
      }
    }
    assert windows[..|windows|] == windows;
    title := if titles != [] then titles[0] else Unknown;
  }

  // ---------------------------------------------------------------------------
  // get_process_list()

  /** What one entry adds to `processes`: nothing when reading it raises or it is no emulator. */
  function RowsFor(e: ProcessEntry, windows: seq<WindowRecord>): seq<ProcessRecord>
  {
    match e.read
    case Raises(_) => []
    case Name(n) =>
      if IsEmulatorName(n) then [ProcessRecord(e.pid, StripExe(n), WindowTitle(windows, e.pid))] else []
  }

  function Listing(entries: seq<ProcessEntry>, windows: seq<WindowRecord>): seq<ProcessRecord>
  {
    if entries == [] then []
    else Listing(entries[..|entries| - 1], windows) + RowsFor(entries[|entries| - 1], windows)
  }

  /**
   * A record is listed exactly when some process's name could be read and
   * contains "dnplayer" in any case; the record carries that pid, the name
   * with ".exe" removed and the process's window title.
   */
  lemma {:induction false} ListingMembership(entries: seq<ProcessEntry>, windows: seq<WindowRecord>)
    ensures forall r :: r in Listing(entries, windows) <==>
      exists i :: 0 <= i < |entries| && entries[i].read.Name? && IsEmulatorName(entries[i].read.name)
               && r == ProcessRecord(entries[i].pid, StripExe(entries[i].read.name), WindowTitle(windows, entries[i].pid))
  {
    if entries != [] {
      var p := entries[..|entries| - 1];
      ListingMembership(p, windows);
      assert forall i :: 0 <= i < |p| ==> p[i] == entries[i];
    }
  }

  lemma {:induction false} ListingAppend(a: seq<ProcessEntry>, b: seq<ProcessEntry>, windows: seq<WindowRecord>)
    ensures Listing(a + b, windows) == Listing(a, windows) + Listing(b, windows)
    decreases |b|
  {
    if b == [] {
      assert a + b == a;
    } else {
      var b', e := b[..|b| - 1], b[|b| - 1];
      assert (a + b)[..|a + b| - 1] == a + b';
      assert (a + b)[|a + b| - 1] == e;
      ListingAppend(a, b', windows);
      assert Listing(a + b, windows) == Listing(a + b', windows) + RowsFor(e, windows);
      assert Listing(b, windows) == Listing(b', windows) + RowsFor(e, windows);
    }
  }

  /** A process whose information raises is skipped, and the listing goes on with the rest. */
  lemma FailingProcessSkipped(a: seq<ProcessEntry>, e: ProcessEntry, b: seq<ProcessEntry>, windows: seq<WindowRecord>)
    requires e.read.Raises?
    ensures Listing(a + [e] + b, windows) == Listing(a + b, windows)
  {
    ListingAppend(a + [e], b, windows);
    ListingAppend(a, [e], windows);
    ListingAppend(a, b, windows);
    assert [e][..0] == [];
    assert Listing(a, windows) + [] == Listing(a, windows);
  }

  lemma ListingOfOne(e: ProcessEntry, windows: seq<WindowRecord>)
    ensures Listing([e], windows) == RowsFor(e, windows)
  {
    assert [e][..0] == [];
  }

  lemma MixedCaseNameIsEmulator()
    ensures IsEmulatorName("DNPlayer.exe")
  {
    assert Lower("DNPlayer.exe")[0..][..8] == "dnplayer";
  }

  lemma MixedCaseNameStripped()
    ensures StripExe("DNPlayer.exe") == "DNPlayer"
  {
    var n := "DNPlayer";
    assert "DNPlayer.exe" == n + ".exe";
    StripExeOfExecutable(n);
  }

  /** The name test ignores case: "DNPlayer.exe" is listed, as "DNPlayer". */
  lemma MixedCaseNameListed()
    ensures Listing([ProcessEntry(7, Name("DNPlayer.exe"))], []) == [ProcessRecord(7, "DNPlayer", Unknown)]
  {
    MixedCaseNameIsEmulator();
    MixedCaseNameStripped();
    ListingOfOne(ProcessEntry(7, Name("DNPlayer.exe")), []);
  }

  lemma UpperCaseSuffixMatches()
    ensures IsEmulatorName("dnplayer.EXE") && StripExe("dnplayer.EXE") == "dnplayer.EXE"
  {
    var b := "dnplayer.EXE";
    assert Lower(b)[0..][..8] == "dnplayer";
    assert !Contains(b, ".exe") by {
      forall i | 0 <= i <= |b| ensures !StartsWith(b[i..], ".exe") {
        if i < 8 {
          assert b[i..][0] == b[i] != '.';
        } else if i == 8 {
          assert b[i..][1] == 'E';
        }
      }
    }
    StripExeKeepsPlainNames(b);
  }

  /** ".exe" is removed only in lower case: "dnplayer.EXE" is listed under its full name. */
  lemma UpperCaseSuffixKept()
    ensures Listing([ProcessEntry(8, Name("dnplayer.EXE"))], []) == [ProcessRecord(8, "dnplayer.EXE", Unknown)]
  {
    UpperCaseSuffixMatches();
    ListingOfOne(ProcessEntry(8, Name("dnplayer.EXE")), []);
  }

  /** `get_process_list()`: a loop over the process table that appends one record per emulator process. */
  method GetProcessList(entries: seq<ProcessEntry>, windows: seq<WindowRecord>) returns (processes: seq<ProcessRecord>)
    ensures processes == Listing(entries, windows)
  {
    processes := [];
    for i := 0 to |entries|
      invariant processes == Listing(entries[..i], windows)
    {
      var e := entries[i];
      assert entries[..i + 1][..i] == entries[..i];
      match e.read {
        case Raises(_) =>
        case Name(n) =>
          if Contains(Lower(n), "dnplayer") {
            var title := CollectWindowTitle(windows, e.pid);
            processes := processes + [ProcessRecord(e.pid, StripExe(n), title)];
          }
      }
    }
    assert entries[..|entries|] == entries;
  }

  // ---------------------------------------------------------------------------
  // get_process_info(pid)

  /** `psutil.Process(pid).name()`: None where no process has that pid (NoSuchProcess). */
  function Lookup(entries: seq<ProcessEntry>, pid: int): (r: Option<NameRead>)
    ensures r.None? <==> forall i :: 0 <= i < |entries| ==> entries[i].pid != pid
    ensures r.Some? ==> exists i :: 0 <= i < |entries| && entries[i].pid == pid && r.value == entries[i].read
  {
    if entries == [] then None
    else if entries[0].pid == pid then Some(entries[0].read)
    else Lookup(entries[1..], pid)
  }

  /**
   * `get_process_info(pid)`: None when psutil raises (no such process, access
   * denied, zombie); otherwise a record for that pid, with the name's ".exe"
   * removed and the title or "Unknown".
   */
  function GetProcessInfo(entries: seq<ProcessEntry>, windows: seq<WindowRecord>, pid: int): (r: Option<ProcessRecord>)
    ensures r.None? <==> Lookup(entries, pid).None? || Lookup(entries, pid).value.Raises?
    ensures r.Some? ==> && r.value.pid == pid
                        && r.value.name == StripExe(Lookup(entries, pid).value.name)
                        && r.value.windowTitle == WindowTitle(windows, pid)
  {
    match Lookup(entries, pid)
    case None => None
    case Some(Raises(_)) => None
    case Some(Name(n)) => Some(ProcessRecord(pid, StripExe(n), WindowTitle(windows, pid)))
  }

  /** With one entry per pid, looking up a listed process gives back exactly its listed record. */
  lemma ListedProcessesLookUpTheSame(entries: seq<ProcessEntry>, windows: seq<WindowRecord>)
    requires forall i, j :: 0 <= i < j < |entries| ==> entries[i].pid != entries[j].pid
    ensures forall r :: r in Listing(entries, windows) ==> GetProcessInfo(entries, windows, r.pid) == Some(r)
  {
    ListingMembership(entries, windows);
    forall r | r in Listing(entries, windows)
      ensures GetProcessInfo(entries, windows, r.pid) == Some(r)
    {
      var i :| 0 <= i < |entries| && entries[i].read.Name? && IsEmulatorName(entries[i].read.name)
               && r == ProcessRecord(entries[i].pid, StripExe(entries[i].read.name), WindowTitle(windows, entries[i].pid));
      var j :| 0 <= j < |entries| && entries[j].pid == r.pid && Lookup(entries, r.pid).value == entries[j].read;
      assert i == j;
    }
  }
}
