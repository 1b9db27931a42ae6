# LDPlayer image monitor, modelled in Dafny

The system watches LDPlayer emulator instances on one Windows machine. The user
ticks emulator processes in a table. A background worker then searches every
emulator window for each reference image in an `images` folder. When an image
is found, it tries to end that emulator's process.

This project models the decision logic of three source files.

- `src/utils/scanner.py`, module `Scanner`. It models `find_ldplayer_windows`:
  - the visible windows titled `LDPlayer-…`;
  - sorted stably by the integer after the first `-`.

  It also models `find_center`:
  - narrowing to one title;
  - skipping windows whose capture fails;
  - the template scaled by `min(w/960, h/540)`;
  - the running best over the two matching methods (strict `>`, from 0);
  - the confidence threshold and the reported centre point;
  - the three None results and the exceptions that escape.
- `src/process_manager.py`, module `ProcessManager`. It models:
  - `get_process_list`: processes whose lower-cased name contains `dnplayer`, the name with `.exe` removed, the window title or `"Unknown"`, and psutil errors skipped;
  - `get_process_info`: a record, or None where psutil raises.
- `src/main.py`, module `Monitor` and class `Monitor.Monitor`. It models:
  - the selected-pid set and its click toggle;
  - the rendered check column;
  - the stopped/monitoring switch;
  - one pass of `monitor_images` over image files × selected pids, including its two exception handlers.

Supporting modules:
- `Text`: the Python `str` operations the code uses (`startswith`, `in`, `lower`, `replace('.exe', '')`, `split('-')[1]`, `int(...)`).
- `Sorting`: `sorted(..., key=...)` as a stable sort.
- `Desktop`: the window records `EnumWindows` visits.
- `Wrappers`: `Option` and `Result`.

## How the environment is modelled

- **Window enumeration.** A `seq<WindowRecord>` in callback order: handle, visibility, owning pid, title.
- **Screen capture and OpenCV.** A function from window handle to `Capture`. A capture is one of:
  - no image (PrintWindow failed);
  - an exception from `capture_window` itself (a Win32 call on a window that has gone away), which escapes `find_center`;
  - a frame whose size is known, plus either an OpenCV error or the peak score and location of `TM_CCOEFF_NORMED` and `TM_CCORR_NORMED`.

  The template is its size, or None when `cv2.imread` fails.
- **psutil.** The process table is a sequence of entries. Each entry holds a pid and either the name or the psutil exception reading it raises.
- **Inside the monitor pass**, several things are parameters:
  - the folder listing;
  - the stop flag as the worker reads it before image `k` (`running(k)`);
  - `get_process_info` (`lookup`);
  - `find_center` at confidence 0.8 (`scan`);
  - whether the kill call raises (`killRaises`).

  The iteration order of the `selected_processes` set is a sequence that enumerates the set.
- **The kill call.** The worker calls a kill method that `ProcessManager` does not define (see Findings). The model follows the code: every such call raises.

## Model

| member | source | states |
|---|---|---|
| Text.StartsWith | src/utils/scanner.py:65 | definition of `s.startswith(prefix)`; used by the "LDPlayer-" tests and by `Contains` |
| Text.EndsWith | src/main.py:181 | definition of `s.endswith(suffix)`, used by the image-extension test; characterised through `Monitor.ImageFiles` |
| Text.Contains | src/process_manager.py:32 | definition of `sub in s`: some position where `s` continues with `sub`; characterised through `StripExeKeepsPlainNames` and `ProcessManager.ListingMembership` |
| Text.Lower | src/process_manager.py:32 | definition of `str.lower()` on ASCII letters, used by the emulator-name test and the image-extension test (src/main.py:181); characterised through `ProcessManager.MixedCaseNameListed` and `Monitor.ImageFiles` |
| Text.StripExe | src/process_manager.py:36 | definition of `name.replace('.exe', '')`: every occurrence removed in one left-to-right pass; characterised by the `StripExe…` lemmas |
| Text.StripExeKeepsPlainNames | src/process_manager.py:36 | a process name containing no ".exe" is reported unchanged |
| Text.StripExeDropsSuffix | src/process_manager.py:36 | a trailing ".exe" is always removed, whatever precedes it |
| Text.StripExeKeepsDotlessNames | src/process_manager.py:36 | a name with no '.' is reported unchanged |
| Text.StripExeOfExecutable | src/process_manager.py:36 | "X.exe", with no '.' in X, is reported as X |
| Text.StripExeIsSinglePass | src/process_manager.py:59 | removal is one left-to-right pass: ".e.exexe" becomes ".exe", ".exe" becomes "" |
| Text.SecondField | src/utils/scanner.py:71 | `split('-')[1]` fails (IndexError) exactly when the title has no '-' |
| Text.ParseInt | src/utils/scanner.py:71 | definition of `int(s)` on a str: surrounding whitespace, an optional sign, digits with single underscores between them, None where Python raises; characterised by `ParseShowNat` and `ParseIntRejectsEmpty` |
| Text.ParseShowNat | src/utils/scanner.py:71 | `int` of the decimal digits of n is n |
| Text.ParseIntRejectsEmpty | src/utils/scanner.py:71 | `int("")` raises, so a title ending at its first '-' has no index |
| Sorting.StableSort | src/utils/scanner.py:71 | `sorted` returns a permutation of its input, non-decreasing by key |
| Sorting.StableSortIsStable | src/utils/scanner.py:71 | for every key, the elements with that key keep their input order |
| Desktop.IsLdTitle | src/utils/scanner.py:65 | definition of `title.startswith('LDPlayer-')`, shared by the window scan and the process title lookup |
| Scanner.Kept | src/utils/scanner.py:63-66 | definition of the enumeration callback's test: a visible window whose title starts with "LDPlayer-"; characterised by `LdCandidates` |
| Scanner.LdCandidates | src/utils/scanner.py:62-70 | a window is collected iff it is visible and its title starts with "LDPlayer-" |
| Scanner.LdCandidatesAppend | src/utils/scanner.py:62-70 | collected windows keep enumeration order |
| Scanner.OrderByIndex | src/utils/scanner.py:71 | definition of `sorted(windows, key=int(title.split('-')[1]))`: the first title without an index raises, otherwise the stable sort by index; characterised by `OrderByIndexSortsStably` |
| Scanner.OrderByIndexSortsStably | src/utils/scanner.py:71 | ordering fails iff some title has no integer after its first '-'. Otherwise the result is a permutation, ascending by instance index, with equal indices kept in enumeration order |
| Scanner.OrderByIndexKeepsWindows | src/utils/scanner.py:71 | a successful ordering holds exactly the collected windows |
| Scanner.FirstUnindexedIsFirst | src/utils/scanner.py:71 | computing the keys raises iff some title has no index, and at the first such title |
| Scanner.InstanceIndex | src/utils/scanner.py:71 | definition of the sort key `int(title.split('-')[1])`, None where it raises; characterised by `InstanceIndexOfCanonicalTitle` and `BareTitleHasNoIndex` |
| Scanner.InstanceIndexOfCanonicalTitle | src/utils/scanner.py:71 | the title "LDPlayer-n" sorts under index n |
| Scanner.BareTitleHasNoIndex | src/utils/scanner.py:71 | "LDPlayer-" has nothing after its '-', so it has no index |
| Scanner.BareTitleRaises | src/utils/scanner.py:71 | one window titled "LDPlayer-" makes the whole enumeration raise |
| Scanner.FindLdplayerWindows | src/utils/scanner.py:61-71 | the callback loop followed by the sort computes the ordered collected windows, or the sort's error |
| Scanner.Narrow | src/utils/scanner.py:84 | with a title given, exactly the windows bearing that title remain |
| Scanner.NarrowEmptyIff | src/utils/scanner.py:83-87 | narrowing leaves nothing iff no window bears the requested title |
| Scanner.Scale | src/utils/scanner.py:112-115 | `min(w / 960, h / 540)`, never negative; characterised by `ScaledSizeAtMultipleOfBase` and `ScaleScenario` |
| Scanner.ScaledSize | src/utils/scanner.py:112-119 | definition of `(int(template_width × scale), int(template_height × scale))`; characterised by `ScaledSizeAtMultipleOfBase` and `ScaleScenario` |
| Scanner.Center | src/utils/scanner.py:145-146 | definition of `best_loc + new_size // 2`, the template's centre; characterised by `ScaleScenario` and `FoundIffConfident` |
| Scanner.ScaledSizeAtMultipleOfBase | src/utils/scanner.py:112-119 | on a frame k times 960×540, the template is scaled by exactly k |
| Scanner.ScaleScenario | src/utils/scanner.py:112-146 | a 1920×1080 frame gives scale 2; a 64×64 template becomes 128×128; found at (800,400) it is reported at (864,464) |
| Scanner.StepBest | src/utils/scanner.py:138-140 | definition of one turn of the methods loop: a strictly higher score replaces the best score and its location; characterised through `RunningBestIsFirstMaximum` |
| Scanner.RunningBest | src/utils/scanner.py:130-140 | definition of the running best over the methods' peaks, from 0 and no location, replaced only on a strictly higher score; characterised by `RunningBestIsFirstMaximum` |
| Scanner.RunningBestIsFirstMaximum | src/utils/scanner.py:130-140 | the best score is max(0, scores). A location is set iff some score is positive, and it is that of the first method with the highest score |
| Scanner.BestOfMethods | src/utils/scanner.py:130-140 | the methods loop computes the running best; the score bounds every method's score; no location iff no positive score |
| Scanner.FoundIffConfident | src/utils/scanner.py:144-147 | with a positive threshold, a window is reported iff some score reaches the threshold, at the centre of the higher score's location (the first method on a tie); otherwise it is a miss |
| Scanner.ThresholdRelaxation | src/utils/scanner.py:144 | lowering the threshold keeps every match and its point |
| Scanner.NoBestLocationNeedsNonPositiveThreshold | src/utils/scanner.py:131-145 | indexing a missing best location (TypeError) can only happen with a threshold ≤ 0 |
| Scanner.DefaultThresholdHasLocation | src/utils/scanner.py:73-145 | at the default threshold 0.8, the one src/main.py:201 passes, a reached threshold always has a location, so the TypeError on `best_loc[0]` cannot happen |
| Scanner.WindowVerdict | src/utils/scanner.py:101-150 | definition of the loop body for one window: skip on a failed capture, raise when the capture itself raises, on an empty resize or on an OpenCV error, otherwise the running best against the threshold and the centre point; characterised by `FoundIffConfident`, `ThresholdRelaxation` and `NoBestLocationNeedsNonPositiveThreshold` |
| Scanner.ScanWindows | src/utils/scanner.py:99-152 | definition of the windows loop: window verdicts in order, hits appended, the first exception escaping; characterised by `ScanWindowsAppend` and `ScanWindowsOutcome` |
| Scanner.ScanWindowsAppend | src/utils/scanner.py:99-152 | windows are scanned independently and in order: results of a list are its parts' results, concatenated |
| Scanner.FailedCaptureIsSkipped | src/utils/scanner.py:101-104 | a window whose capture fails adds nothing, and the later windows are still scanned |
| Scanner.ScanWindowsOutcome | src/utils/scanner.py:99-152 | the scan raises iff some window faults; otherwise a result is reported iff its window was found at that point |
| Scanner.ScanFailureFromPrefix | src/utils/scanner.py:100-147 | once a window raised, the whole scan raises that error |
| Scanner.FindCenterNoWindows | src/utils/scanner.py:78-81 | "no window" is returned iff no visible "LDPlayer-…" window exists |
| Scanner.FindCenterTitleNotFound | src/utils/scanner.py:83-87 | "title not found" is returned iff a title is given, windows exist and order, and none bears that title |
| Scanner.FindCenterTemplateUnreadable | src/utils/scanner.py:89-92 | "template unreadable" is returned iff the windows order, some window remains after narrowing, and the template cannot be read |
| Scanner.FindCenterReturnsNone | src/utils/scanner.py:78-92 | None is returned for no emulator window, a title matching none of them, or an unreadable template, each exactly in its case |
| Scanner.HitsHaveRequestedTitle | src/utils/scanner.py:83-147 | with a title given, every result carries that title |
| Scanner.FindCenterScansOnlyTitled | src/utils/scanner.py:83-104 | with a title, only the windows bearing it are captured: two screens agreeing on those windows give the same result, so another window's failed or raising capture never matters |
| Scanner.FindCenterHitsComplete | src/utils/scanner.py:83-152 | with a title, a result is reported iff it carries that title and the template is found at that point in an emulator window bearing the title |
| Scanner.FindCenterSpec | src/utils/scanner.py:73-152 | definition of `find_center`: ordering, the three None cases in source order, then the scan of the narrowed windows; characterised by the `FindCenter…` lemmas |
| Scanner.ScanWindow | src/utils/scanner.py:100-150 | the loop body computes the window's verdict: skip, miss, a point, or an exception |
| Scanner.ScanAll | src/utils/scanner.py:99-152 | the windows loop computes the scan of all windows, leaving at the first exception |
| Scanner.FindCenter | src/utils/scanner.py:73-152 | the method computes `find_center`'s result as characterised by the lemmas above |
| ProcessManager.OwnsLdWindow | src/process_manager.py:16-21 | definition of the callback's test: a visible window of the pid whose title starts with "LDPlayer-"; characterised through `OwnedLdTitlesFirst` and `OtherWindowsIgnored` |
| ProcessManager.OwnedLdTitles | src/process_manager.py:15-25 | definition of the titles the callback appends: visible windows of the pid titled "LDPlayer-…", in enumeration order; characterised by `OwnedLdTitlesFirst` and `OwnedLdTitlesAppend` |
| ProcessManager.OwnedLdTitlesFirst | src/process_manager.py:15-25 | no title is collected iff no visible window of the pid is titled "LDPlayer-…"; the first one collected is the first such window |
| ProcessManager.WindowTitle | src/process_manager.py:14-26 | definition of `get_window_title`: the first collected title, or "Unknown"; characterised by `WindowTitleIsFirstOwnedLdTitle` |
| ProcessManager.WindowTitleIsFirstOwnedLdTitle | src/process_manager.py:14-26 | the title is that of the first visible "LDPlayer-…" window of the pid, "Unknown" iff there is none, and never any other window's title |
| ProcessManager.OwnedLdTitlesAppend | src/process_manager.py:24-25 | titles are collected in enumeration order |
| ProcessManager.OtherWindowsIgnored | src/process_manager.py:16-21 | a hidden window, another process's window, or a window not titled "LDPlayer-…" never affects the title |
| ProcessManager.CollectWindowTitle | src/process_manager.py:14-26 | the callback loop computes that title |
| ProcessManager.IsEmulatorName | src/process_manager.py:32 | definition of `'dnplayer' in name.lower()`; characterised by `ListingMembership` and `MixedCaseNameListed` |
| ProcessManager.RowsFor | src/process_manager.py:30-42 | definition of one `process_iter` turn: no record when reading the name raises or it is no emulator, else the pid, stripped name and title; characterised through `ListingMembership` and `FailingProcessSkipped` |
| ProcessManager.Listing | src/process_manager.py:28-43 | definition of the `process_iter` loop: each entry adds its record when its name reads and names an emulator, nothing otherwise; characterised by `ListingMembership`, `ListingAppend` and `FailingProcessSkipped` |
| ProcessManager.ListingMembership | src/process_manager.py:28-43 | a record is listed iff some process's name can be read and contains "dnplayer" in any case. The record holds its pid, its name without ".exe" and its title |
| ProcessManager.ListingAppend | src/process_manager.py:28-43 | records follow `process_iter` order |
| ProcessManager.FailingProcessSkipped | src/process_manager.py:41-42 | a process raising NoSuchProcess, AccessDenied or ZombieProcess is skipped, and listing goes on |
| ProcessManager.MixedCaseNameListed | src/process_manager.py:32-36 | "DNPlayer.exe" is listed as "DNPlayer" |
| ProcessManager.UpperCaseSuffixKept | src/process_manager.py:36 | ".EXE" is not removed: "dnplayer.EXE" is listed under that name |
| ProcessManager.GetProcessList | src/process_manager.py:9-43 | the loop computes the listing characterised above |
| ProcessManager.Lookup | src/process_manager.py:58 | `psutil.Process(pid)` finds nothing iff no process has that pid, else that process |
| ProcessManager.GetProcessInfo | src/process_manager.py:54-91 | None iff psutil raises (no such process, or its name cannot be read); otherwise that pid, its name without ".exe", and its title or "Unknown" |
| ProcessManager.ListedProcessesLookUpTheSame | src/process_manager.py:54-91 | with one entry per pid, looking up a listed process gives back its listed record |
| Monitor.Toggle | src/main.py:128-131 | the clicked pid's membership flips and every other pid's is kept |
| Monitor.ToggleTwice | src/main.py:128-131 | a second toggle of a pid restores the selection |
| Monitor.ClickedPid | src/main.py:116-125 | definition of the guards of `handle_click`: the pid of a row with values clicked in a cell of column "#1", else none; characterised by `ClickChangesSelectionIff` |
| Monitor.AfterClick | src/main.py:116-131 | definition of the selection after `handle_click`: the clicked pid toggled, or the selection unchanged; characterised by `ClickChangesSelectionIff` and `ClickTwiceRestores` |
| Monitor.ClickChangesSelectionIff | src/main.py:116-131 | a click changes the selection iff it hits a cell of column "#1" on a row with values, and only that row's pid changes |
| Monitor.ClickTwiceRestores | src/main.py:114-131 | the same click twice leaves the selection as it was |
| Monitor.RowFor | src/main.py:102-112 | definition of one inserted row: "✓" or " ", pid, name and window title; characterised by `RenderMarksSelection` |
| Monitor.Render | src/main.py:101-112 | one row per listed process, in listing order; its marks are characterised by `RenderMarksSelection` |
| Monitor.RenderMarksSelection | src/main.py:101-112 | one row per listed process; the check column shows "✓" iff the pid is selected, " " otherwise |
| Monitor.ClickFlipsOnlyItsMarks | src/main.py:104-134 | after a click, only the rows of the clicked pid change their mark |
| Monitor.ToggleDecision | src/main.py:147-158 | definition of `toggle_monitoring`'s branch: start, warn or stop; characterised by `ToggleDecisionFlipsUnlessEmpty` |
| Monitor.MonitoringAfter | src/main.py:147-169 | definition of the switch after a press: set on a start, unchanged on a warning, cleared on a stop; characterised by `ToggleDecisionFlipsUnlessEmpty` |
| Monitor.ToggleDecisionFlipsUnlessEmpty | src/main.py:147-158 | the button flips the switch, except that when stopped with nothing selected it only warns; monitoring never starts without a selection |
| Monitor.IsImageFile | src/main.py:181 | definition of `f.lower().endswith(('.png', '.jpg', '.jpeg'))`; characterised by `ImageFiles` |
| Monitor.ImageFiles | src/main.py:180-181 | a file is scanned iff its lower-cased name ends in ".png", ".jpg" or ".jpeg" |
| Monitor.Confirmed | src/main.py:202 | definition of `if results:`: a non-empty result list, never None; characterised through `FileRunEvents` and `FileRunVisitsReachedPids` |
| Monitor.PidStep | src/main.py:195-205 | definition of the pid loop body: no scan without a found process whose title is not "Unknown"; a scan, then a kill on a non-empty result; a raise from either ends the loop; characterised by `FileRunEvents` and `FileRunVisitsReachedPids` |
| Monitor.FileRun | src/main.py:193-207 | definition of the `try` around the pid loop: pids in order until one step raises; characterised by `FileRunEvents`, `FileRunVisitsReachedPids`, `FileRunStaysStopped` and `AbortAbandonsLaterPids` |
| Monitor.FilesRun | src/main.py:188-207 | definition of the file loop: the stop flag read before each image, each image's pid loop otherwise; characterised by `FilesRunStaysStopped`, `RunsAllWhileRunning` and `StopCheckedBeforeEachImage` |
| Monitor.Pass | src/main.py:172-211 | definition of one iteration of the worker loop: no selection, no folder, no image file, or the file loop; characterised by `PassEventsJustified` |
| Monitor.FileRunEvents | src/main.py:193-207 | every event for an image is about that image and a selected pid, and follows from that pid's lookup, scan and kill |
| Monitor.FileRunVisitsReachedPids | src/main.py:194-205 | conversely, a pid the loop reaches, found with a title other than "Unknown", is scanned in that title, and a non-empty result is followed by its kill call, whether the kill raises or not |
| Monitor.FilesRunEvents | src/main.py:188-207 | the same holds over all images |
| Monitor.PassEventsJustified | src/main.py:171-209 | nothing is scanned without a selection, a folder and an image file. A scan needs a found process whose title is not "Unknown"; a kill needs a non-empty result; an abort needs a raise |
| Monitor.FileRunStaysStopped | src/main.py:193-207 | after an exception, the remaining pids of that image add nothing |
| Monitor.FilesRunStaysStopped | src/main.py:188-190 | after the stop flag is seen, the remaining images add nothing |
| Monitor.RunsAllWhileRunning | src/main.py:188-207 | while the stop flag stays set, every image runs in full, in order |
| Monitor.AbortAbandonsLaterPids | src/main.py:193-207 | an exception for one pid abandons exactly the pids after it for that image |
| Monitor.StopCheckedBeforeEachImage | src/main.py:188-207 | the stop flag is read only before each image. Every image before the first false reading is run in full, whatever was raised for earlier images; the pass is interrupted iff such a reading exists |
| Monitor.KillByNameRaises | src/main.py:204 | definition of the kill as written: `kill_process_by_name` does not exist, so every call raises; characterised by `KillByNameAbandonsLaterPids` and `KillByNameEndsImage` |
| Monitor.KillProcessRaises | src/process_manager.py:46-52 | definition of the corrected kill: `kill_process` catches every exception, so it never raises; characterised by `KillProcessVisitsEveryPid` and `KillProcessStopsOnlyOnRaisedScan` |
| Monitor.KillByNameAbandonsLaterPids | src/main.py:204-207 | two emulators both showing the image: after the first one's kill raises, the second is never scanned |
| Monitor.KillByNameEndsImage | src/main.py:204-207 | as written, every kill is followed only by its abort, so an image never sees two kills |
| Monitor.KillProcessVisitsEveryPid | src/process_manager.py:46-52 | with `kill_process`, which never raises, and as long as no scan raises, every selected pid with a known window is scanned for the image, and killed when the image is found |
| Monitor.KillProcessStopsOnlyOnRaisedScan | src/main.py:193-207 | with `kill_process`, for any scans, the pid loop is left only at a reached pid with a known window whose `find_center` raised; with `FileRunVisitsReachedPids`, every pid before it is scanned and killed when the image is found |
| Monitor.SelectionOrder | src/main.py:174-194 | the pid order is empty iff the selection is |
| Monitor.ScanImage | src/main.py:193-207 | the `try` around the pid loop computes that image's events |
| Monitor.Monitor.constructor | src/main.py:34-79 | nothing selected, stopped, no worker, and the table loaded once |
| Monitor.Monitor.UpdateProcessList | src/main.py:92-112 | the rows become the current listing, marked by the selection |
| Monitor.Monitor.HandleClick | src/main.py:114-134 | the selection becomes the clicked one; the table is redrawn only after a toggle |
| Monitor.Monitor.StartMonitoring | src/main.py:160-164 | when stopped, sets the switch and starts exactly one worker; when running, changes nothing |
| Monitor.Monitor.StopMonitoring | src/main.py:166-169 | the switch is always cleared |
| Monitor.Monitor.ToggleMonitoring | src/main.py:147-158 | starts with a selection, warns without one, stops when running; keeps "monitoring implies a worker" |
| Monitor.Monitor.MonitorImagesPass | src/main.py:171-211 | one pass of the worker computes the outcome and events of `Pass` |

## Left out

- Win32 calls (`EnumWindows`, `GetWindowText`, `PrintWindow`, the device contexts): the enumeration and the captures are inputs.
- `find_window_by_pid` and `capture_window` (src/utils/scanner.py:14-59): OS primitives, replaced by the capture input. A capture that raises (for instance `GetWindowRect` or `GetWindowDC` on a window closed after enumeration) is the `CaptureFault` outcome, which escapes `find_center` as `CaptureError`; which Win32 call raised is not modelled. `find_window_by_pid` is never called by the modelled code.
- OpenCV colour conversion, `resize`, `normalize`, `matchTemplate` and `minMaxLoc`: each method's peak score and location are inputs, and any OpenCV error is one outcome. Those inputs are not tied to the frame and template sizes: a scaled template larger than the frame, where `matchTemplate` raises, is covered only because any window may have that OpenCV-error outcome.
- Scanner.ScaledSize: the scale is an exact `real`, not an IEEE double, so at a product that lands on an integer boundary Python's truncation may differ from the model by one.
- Text.Lower: only ASCII letters are lower-cased; Unicode case mapping is not modelled.
- Text.ParseInt: only ASCII whitespace and ASCII digits are accepted; Python also accepts other Unicode digits and spaces.
- CPU and memory percentages in the listing (src/process_manager.py:38-39): float formatting, not modelled.
- psutil's own behaviour inside `process_iter` (substituting None for a name it may not read) is not part of this model; the model follows the code's `except` clause.
- Debug `print` calls, and all `print` logging in the monitor pass.
- `kill_process` (src/process_manager.py:46-52) runs `taskkill` through `os.system`; it appears only as a kill that never raises.
- tkinter widgets: layout, headings, scrollbar, `show_selected_processes`'s message box, the `auto_refresh` timer, and the status label and button captions.
- Monitor.Monitor.StopMonitoring: does not model `join(timeout=1.0)`, because waiting on the worker is concurrency.
- Threads: the daemon thread, the repetition of the `while` loop, `time.sleep`, and the unsynchronised sharing of `selected_processes` between the UI and the worker. The set can change while the worker iterates over it, which Python reports as a RuntimeError. That is concurrency, and not modelled.
- Monitor.Monitor.MonitorImagesPass: `scan` and `lookup` are parameters, not `FindCenterSpec` and `GetProcessInfo` themselves, because the desktop and process table change between calls.
- The images folder's path resolution (`sys._MEIPASS`, `os.path.join`).

## Findings

| source | as written | input that shows it | evidently intended | confidence | as-written member | corrected member |
|---|---|---|---|---|---|---|
| src/main.py:204 | calls `ProcessManager.kill_process_by_name(name)`, which the class does not define, so every confirmed match raises AttributeError; line 206 catches it and abandons that image's remaining pids | pids 1 and 2 both selected, both with an emulator window showing the image: pid 1's kill raises and pid 2 is never scanned or killed for that image | `ProcessManager.kill_process(pid)` (src/process_manager.py:46), which never raises, so every selected emulator is checked and killed, unless `find_center` itself raises for one of them | high; not executed | Monitor.KillByNameAbandonsLaterPids | Monitor.KillProcessVisitsEveryPid |
