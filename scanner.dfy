/**
 * The decision logic of `ImageScanner` (src/utils/scanner.py): which windows
 * are emulator windows and in what order, which of them a search looks at,
 * and when a template counts as found in a window and where.
 *
 * Window enumeration, screen capture and OpenCV's template matching are
 * inputs: the desktop is a sequence of window records, and `screen` gives, per
 * window handle, either a failed capture or the frame's size together with
 * the peak score and location of each matching method.
 */
module Scanner {
  import opened Wrappers
  import opened Text
  import opened Sorting
  import opened Desktop

  /** An emulator window: handle and title, as `find_ldplayer_windows` returns it. */
  datatype LdWindow = LdWindow(hwnd: int, title: string)

  datatype Point = Point(x: int, y: int)

  datatype Size = Size(width: nat, height: nat)

  /** The maximum of one `matchTemplate` result surface and where it lies (`cv2.minMaxLoc`). */
  datatype Peak = Peak(score: real, loc: Point)

  /** The two methods' peaks, in the order of `methods` (TM_CCOEFF_NORMED, TM_CCORR_NORMED), or an OpenCV error. */
  datatype Matching = CvFailure | Peaks(ccoeff: Peak, ccorr: Peak)

  /**
   * `capture_window`: None when PrintWindow reports failure, an exception
   * when a Win32 call on the window raises (for instance on a window closed
   * since the enumeration), else a frame of the given size.
   */
  datatype Capture = NoImage | CaptureFault | Frame(width: nat, height: nat, matching: Matching)

  /** Exceptions that escape `find_center`, with the title of the window concerned. */
  datatype ScanError =
    | BadInstanceIndex(title: string)   // int(title.split('-')[1]) raised ValueError
    | CaptureError(title: string)       // capture_window itself raised
    | EmptyResize(title: string)        // cv2.resize to a zero width or height
    | CvError(title: string)            // any other OpenCV error while matching
    | NoBestLocation(title: string)     // best_loc is still None when it is indexed (TypeError)

  /** One entry of `results`: the window's title and the template's centre in it. */
  datatype Hit = Hit(title: string, center: Point)

  /**
   * What `find_center` does: return None for one of three reasons, return the
   * list of results (possibly empty), or raise.
   */
  datatype FindResult =
    | NoWindows
    | TitleNotFound
    | TemplateUnreadable
    | Hits(hits: seq<Hit>)
    | Raised(error: ScanError)

  /** The resolution the templates were made at. */
  const BaseWidth: nat := 960
  const BaseHeight: nat := 540

  /** `find_center`'s default threshold, and the one src/main.py:201 passes. */
  const DefaultConfidence: real := 0.8

  // ---------------------------------------------------------------------------
  // find_ldplayer_windows

  predicate Kept(w: WindowRecord)
  {
    w.visible && IsLdTitle(w.title)
  }

  function AsLd(w: WindowRecord): LdWindow
  {
    LdWindow(w.hwnd, w.title)
  }

  /** The windows the enumeration callback appends, in enumeration order. */
  function LdCandidates(desktop: seq<WindowRecord>): (r: seq<LdWindow>)
    ensures forall v :: v in r <==> exists i :: 0 <= i < |desktop| && Kept(desktop[i]) && v == AsLd(desktop[i])
  {
    if desktop == [] then []
    else
      var w := desktop[|desktop| - 1];
      var prefix := desktop[..|desktop| - 1];
      assert forall i :: 0 <= i < |prefix| ==> prefix[i] == desktop[i];
      LdCandidates(prefix) + (if Kept(w) then [AsLd(w)] else [])
  }

  /** The enumeration keeps its order: the windows of a longer enumeration come after those of its prefix. */
  lemma {:induction false} LdCandidatesAppend(a: seq<WindowRecord>, b: seq<WindowRecord>)
    ensures LdCandidates(a + b) == LdCandidates(a) + LdCandidates(b)
    decreases |b|
  {
    if b == [] {
      assert a + b == a;
    } else {
      var b' := b[..|b| - 1];
      assert (a + b)[..|a + b| - 1] == a + b';
      LdCandidatesAppend(a, b');
    }
  }

  /** `int(title.split('-')[1])`, None where Python raises. */
  function InstanceIndex(title: string): Option<int>
  {
    match SecondField(title, '-')
    case None => None
    case Some(field) => ParseInt(field)
  }

  /** The sort key once every key is known to exist. */
  function IndexKey(w: LdWindow): int
  {
    match InstanceIndex(w.title)
    case Some(k) => k
    case None => 0
  }

  /** The position of the first element without the property, if any. */
  function FirstWithout<T>(s: seq<T>, has: T -> bool): (r: Option<nat>)
    ensures r.Some? ==> r.value < |s|
  {
    if s == [] then None
    else if !has(s[0]) then Some(0)
    else match FirstWithout(s[1..], has)
      case None => None
      case Some(i) => Some(i + 1)
  }

  /** It finds an element without the property exactly when there is one, and the earliest. */
  lemma {:induction false} FirstWithoutIsFirst<T>(s: seq<T>, has: T -> bool)
    ensures var r := FirstWithout(s, has);
      && (r.None? <==> forall i :: 0 <= i < |s| ==> has(s[i]))
      && (r.Some? ==> !has(s[r.value]) && forall j :: 0 <= j < r.value ==> has(s[j]))
  {
    if s != [] && has(s[0]) {
      FirstWithoutIsFirst(s[1..], has);
      assert forall i :: 1 <= i < |s| ==> s[i] == s[1..][i - 1];
    }
  }

  /** Whether the window's title carries an instance index. */
  predicate Indexed(w: LdWindow)
  {
    InstanceIndex(w.title).Some?
  }

  /** The first window whose title has no instance index (where computing the keys raises). */
  function FirstUnindexed(ws: seq<LdWindow>): (r: Option<nat>)
    ensures r.Some? ==> r.value < |ws|
  {
    FirstWithout(ws, Indexed)
  }

  /** It finds a window without an index exactly when there is one, and the earliest. */
  lemma FirstUnindexedIsFirst(ws: seq<LdWindow>)
    ensures var r := FirstUnindexed(ws);
      && (r.None? <==> forall i :: 0 <= i < |ws| ==> InstanceIndex(ws[i].title).Some?)
      && (r.Some? ==> InstanceIndex(ws[r.value].title).None?
                      && forall j :: 0 <= j < r.value ==> InstanceIndex(ws[j].title).Some?)
  {
    FirstWithoutIsFirst(ws, Indexed);
  }

  /** `sorted(windows, key=lambda x: int(x[1].split('-')[1]))`. */
  function OrderByIndex(ws: seq<LdWindow>): Result<seq<LdWindow>, ScanError>
  {
    match FirstUnindexed(ws)
    case Some(i) => Failure(BadInstanceIndex(ws[i].title))
    case None => Success(StableSort(ws, IndexKey))
  }

  /**
   * The ordering either fails, exactly when some title has no integer after its
   * first '-', or is a permutation of the windows, ascending by instance index,
   * that keeps windows with equal indices in enumeration order.
   */
  lemma OrderByIndexSortsStably(ws: seq<LdWindow>)
    ensures OrderByIndex(ws).Failure? <==> exists i :: 0 <= i < |ws| && InstanceIndex(ws[i].title).None?
    ensures OrderByIndex(ws).Success? ==>
      var r := OrderByIndex(ws).value;
      && multiset(r) == multiset(ws)
      && (forall i :: 0 <= i < |r| ==> InstanceIndex(r[i].title).Some?)
      && (forall i, j :: 0 <= i < j < |r| ==>
            InstanceIndex(r[i].title).value <= InstanceIndex(r[j].title).value)
      && (forall k :: WithKey(r, IndexKey, k) == WithKey(ws, IndexKey, k))
  {
    FirstUnindexedIsFirst(ws);
    if OrderByIndex(ws).Success? {
      var r := OrderByIndex(ws).value;
      forall i | 0 <= i < |r| ensures InstanceIndex(r[i].title).Some? {
        assert r[i] in multiset(ws);
        var j :| 0 <= j < |ws| && ws[j] == r[i];
      }
      forall k ensures WithKey(r, IndexKey, k) == WithKey(ws, IndexKey, k) {
        StableSortIsStable(ws, IndexKey, k);
      }
    }
  }

  /** A title "LDPlayer-<n>" has instance index n. */
  lemma InstanceIndexOfCanonicalTitle(n: nat)
    ensures InstanceIndex(LdPrefix + ShowNat(n)) == Some(n)
  {
    var d := ShowNat(n);
    var t := LdPrefix + d;
    assert '-' !in d;
    assert t[8] == '-';
    assert '-' !in t[..8];
    var i := IndexOf(t, '-');
    assert i == Some(8);
    assert t[9..] == d;
    assert IndexOf(d, '-') == None;
    ParseShowNat(n);
  }

  /** "LDPlayer-" has nothing after its '-', and `int("")` raises. */
  lemma BareTitleHasNoIndex()
    ensures InstanceIndex(LdPrefix).None?
  {
    var t := LdPrefix;
    assert t[8] == '-' && '-' !in t[..8];
    assert IndexOf(t, '-') == Some(8);
    assert t[9..] == "";
    assert Before("", '-') == "";
    ParseIntRejectsEmpty();
  }

  /** A window titled just "LDPlayer-" makes the whole enumeration raise, whatever else is open. */
  lemma BareTitleRaises(ws: seq<LdWindow>, i: nat)
    requires i < |ws| && ws[i].title == LdPrefix
    ensures OrderByIndex(ws).Failure?
  {
    BareTitleHasNoIndex();
    FirstUnindexedIsFirst(ws);
    assert InstanceIndex(ws[i].title).None?;
  }

  /** `find_ldplayer_windows`: the callback's appends, then the sort. */
  method FindLdplayerWindows(desktop: seq<WindowRecord>) returns (r: Result<seq<LdWindow>, ScanError>)
    ensures r == OrderByIndex(LdCandidates(desktop))
  {
    var windows: seq<LdWindow> := [];
    for i := 0 to |desktop|
      invariant windows == LdCandidates(desktop[..i])
    {
      var w := desktop[i];
      assert desktop[..i + 1][..i] == desktop[..i];
      if w.visible {
        if StartsWith(w.title, LdPrefix) {
          windows := windows + [LdWindow(w.hwnd, w.title)];
        }
      }
    }
    assert desktop[..|desktop|] == desktop;
    r := OrderByIndex(windows);
  }

  // ---------------------------------------------------------------------------
  // find_center: narrowing to one title

  /** `[(hwnd, title) for hwnd, title in ldplayer_windows if title == window_title]`. */
  function Narrow(ws: seq<LdWindow>, title: string): (r: seq<LdWindow>)
    ensures forall v :: v in r <==> v in ws && v.title == title
  {
    if ws == [] then []
    else (if ws[0].title == title then [ws[0]] else []) + Narrow(ws[1..], title)
  }

  // ---------------------------------------------------------------------------
  // find_center: the scaled template

  function Min(a: real, b: real): real
  {
    if a <= b then a else b
  }

  /** `min(width / BASE_WIDTH, height / BASE_HEIGHT)`. */
  function Scale(width: nat, height: nat): (s: real)
    ensures s >= 0.0
  {
    Min(width as real / BaseWidth as real, height as real / BaseHeight as real)
  }

  /** `(int(template_width * scale), int(template_height * scale))`. */
  function ScaledSize(template: Size, width: nat, height: nat): Size
  {
    var s := Scale(width, height);
    var w := (template.width as real * s).Floor;
    var h := (template.height as real * s).Floor;
    Size(w, h)
  }

  /** A frame k times the base resolution scales the template by exactly k. */
  lemma {:induction false} ScaledSizeAtMultipleOfBase(template: Size, k: nat)
    ensures ScaledSize(template, BaseWidth * k, BaseHeight * k) == Size(template.width * k, template.height * k)
  {
    assert (BaseWidth * k) as real / BaseWidth as real == k as real;
    assert (BaseHeight * k) as real / BaseHeight as real == k as real;
    assert Scale(BaseWidth * k, BaseHeight * k) == k as real;
    assert template.width as real * k as real == (template.width * k) as real;
    assert template.height as real * k as real == (template.height * k) as real;
  }

  /** `best_loc + new_size // 2`: the template's centre, not its corner. */
  function Center(loc: Point, size: Size): Point
  {
    Point(loc.x + size.width / 2, loc.y + size.height / 2)
  }

  /** A 64x64 template on a 1920x1080 capture becomes 128x128; found at (800, 400) it is reported at (864, 464). */
  lemma ScaleScenario()
    ensures Scale(1920, 1080) == 2.0
    ensures ScaledSize(Size(64, 64), 1920, 1080) == Size(128, 128)
    ensures Center(Point(800, 400), ScaledSize(Size(64, 64), 1920, 1080)) == Point(864, 464)
  {
    ScaledSizeAtMultipleOfBase(Size(64, 64), 2);
  }

  // ---------------------------------------------------------------------------
  // find_center: best score across the matching methods

  /** `max_val_overall` and `best_loc`. */
  datatype Best = Best(score: real, loc: Option<Point>)

  /** One turn of the methods loop: a strictly higher score replaces the best so far. */
  function StepBest(b: Best, p: Peak): Best
  {
    if p.score > b.score then Best(p.score, Some(p.loc)) else b
  }

  /** The running maximum over the methods' peaks, from `0` and no location. */
  function RunningBest(peaks: seq<Peak>): Best
  {
    if peaks == [] then Best(0.0, None)
    else StepBest(RunningBest(peaks[..|peaks| - 1]), peaks[|peaks| - 1])
  }

  /**
   * The running best is the larger of 0 and the highest score; it has a location
   * exactly when some score is positive, and then it is the location of the
   * FIRST peak with the highest score.
   */
  lemma {:induction false} RunningBestIsFirstMaximum(peaks: seq<Peak>)
    ensures var b := RunningBest(peaks);
      && b.score >= 0.0
      && (forall i :: 0 <= i < |peaks| ==> peaks[i].score <= b.score)
      && (b.loc.None? <==> forall i :: 0 <= i < |peaks| ==> peaks[i].score <= 0.0)
      && (b.loc.None? ==> b.score == 0.0)
      && (b.loc.Some? ==> exists k :: 0 <= k < |peaks| && peaks[k].score == b.score && b.loc.value == peaks[k].loc
                                     && forall j :: 0 <= j < k ==> peaks[j].score < b.score)
  {
    if peaks != [] {
      var p := peaks[..|peaks| - 1];
      var last := peaks[|peaks| - 1];
      RunningBestIsFirstMaximum(p);
      var b0 := RunningBest(p);
      assert forall i :: 0 <= i < |p| ==> peaks[i] == p[i];
      if last.score > b0.score {
        var k := |peaks| - 1;
        assert forall j :: 0 <= j < k ==> peaks[j].score < last.score;
      } else if b0.loc.Some? {
        var k :| 0 <= k < |p| && p[k].score == b0.score && b0.loc.value == p[k].loc
                 && forall j :: 0 <= j < k ==> p[j].score < b0.score;
        assert peaks[k] == p[k];
      }
    }
  }

  /** The methods loop of `find_center`. */
  method BestOfMethods(peaks: seq<Peak>) returns (maxVal: real, bestLoc: Option<Point>)
    ensures Best(maxVal, bestLoc) == RunningBest(peaks)
    ensures maxVal >= 0.0 && forall i :: 0 <= i < |peaks| ==> peaks[i].score <= maxVal
    ensures bestLoc.None? <==> forall i :: 0 <= i < |peaks| ==> peaks[i].score <= 0.0
  {
    maxVal, bestLoc := 0.0, None;
    for i := 0 to |peaks|
      invariant Best(maxVal, bestLoc) == RunningBest(peaks[..i])
    {
      assert peaks[..i + 1][..i] == peaks[..i];
      if peaks[i].score > maxVal {
        maxVal := peaks[i].score;
        bestLoc := Some(peaks[i].loc);
      }
    }
    assert peaks[..|peaks|] == peaks;
    RunningBestIsFirstMaximum(peaks);
  }

  function MethodPeaks(m: Matching): seq<Peak>
    requires m.Peaks?
  {
    [m.ccoeff, m.ccorr]
  }

  // ---------------------------------------------------------------------------
  // find_center: one window

  /** What the loop body does with one window. */
  datatype Verdict = Skip | Miss | Found(center: Point) | Fault(error: ScanError)

  function WindowVerdict(w: LdWindow, capture: Capture, template: Size, confidence: real): Verdict
  {
    match capture
    case NoImage => Skip
    case CaptureFault => Fault(CaptureError(w.title))
    case Frame(width, height, matching) =>
      var size := ScaledSize(template, width, height);
      if size.width == 0 || size.height == 0 then Fault(EmptyResize(w.title))
      else match matching
        case CvFailure => Fault(CvError(w.title))
        case Peaks(_, _) =>
          var best := RunningBest(MethodPeaks(matching));
          if best.score >= confidence then
            match best.loc
            case None => Fault(NoBestLocation(w.title))
            case Some(loc) => Found(Center(loc, size))
          else Miss
  }

  /**
   * With a positive threshold, a window whose capture and matching succeed is
   * reported exactly when one of the two scores reaches the threshold, at the
   * centre of the location of the higher score; on a tie the first method wins.
   */
  lemma FoundIffConfident(w: LdWindow, width: nat, height: nat, a: Peak, b: Peak, template: Size, confidence: real)
    requires confidence > 0.0
    requires ScaledSize(template, width, height).width > 0 && ScaledSize(template, width, height).height > 0
    ensures var v := WindowVerdict(w, Frame(width, height, Peaks(a, b)), template, confidence);
      var size := ScaledSize(template, width, height);
      && (v.Found? <==> a.score >= confidence || b.score >= confidence)
      && (!v.Found? ==> v == Miss)
      && (a.score >= confidence && a.score >= b.score ==> v == Found(Center(a.loc, size)))
      && (b.score >= confidence && b.score > a.score ==> v == Found(Center(b.loc, size)))
  {
    RunningBestIsFirstMaximum([a, b]);
  }

  /** Lowering the threshold never loses a window's match nor moves its point. */
  lemma ThresholdRelaxation(w: LdWindow, capture: Capture, template: Size, c1: real, c2: real)
    requires c1 <= c2
    requires WindowVerdict(w, capture, template, c2).Found?
    ensures WindowVerdict(w, capture, template, c1) == WindowVerdict(w, capture, template, c2)
  {
  }

  /** The TypeError on a missing best location needs a threshold of 0 or less: never the 0.8 in use. */
  lemma NoBestLocationNeedsNonPositiveThreshold(w: LdWindow, capture: Capture, template: Size, confidence: real)
    requires WindowVerdict(w, capture, template, confidence).Fault?
    requires WindowVerdict(w, capture, template, confidence).error.NoBestLocation?
    ensures confidence <= 0.0
  {
    var m := capture.matching;
    RunningBestIsFirstMaximum(MethodPeaks(m));
  }

  /** At the threshold the monitor uses, a reached threshold always comes with a location. */
  lemma DefaultThresholdHasLocation(w: LdWindow, capture: Capture, template: Size)
    ensures var v := WindowVerdict(w, capture, template, DefaultConfidence);
      !(v.Fault? && v.error.NoBestLocation?)
  {
    var v := WindowVerdict(w, capture, template, DefaultConfidence);
    if v.Fault? && v.error.NoBestLocation? {
      NoBestLocationNeedsNonPositiveThreshold(w, capture, template, DefaultConfidence);
    }
  }

  // ---------------------------------------------------------------------------
  // find_center: all windows

  /** The windows loop: results in window order; the first fault escapes. */
  function ScanWindows(ws: seq<LdWindow>, screen: int -> Capture, template: Size, confidence: real): Result<seq<Hit>, ScanError>
  {
    if ws == [] then Success([])
    else
      match ScanWindows(ws[..|ws| - 1], screen, template, confidence)
      case Failure(e) => Failure(e)
      case Success(hits) =>
        var w := ws[|ws| - 1];
        match WindowVerdict(w, screen(w.hwnd), template, confidence)
        case Skip => Success(hits)
        case Miss => Success(hits)
        case Found(p) => Success(hits + [Hit(w.title, p)])
        case Fault(e) => Failure(e)
  }

  /** Results of two stretches of windows, one after the other. */
  function Then(a: Result<seq<Hit>, ScanError>, b: Result<seq<Hit>, ScanError>): Result<seq<Hit>, ScanError>
  {
    match a
    case Failure(e) => Failure(e)
    case Success(h) =>
      match b
      case Failure(e) => Failure(e)
      case Success(h') => Success(h + h')
  }

  /** Windows are scanned in order and independently: a list's results are its parts' results, concatenated. */
  lemma {:induction false} ScanWindowsAppend(a: seq<LdWindow>, b: seq<LdWindow>, screen: int -> Capture, template: Size, confidence: real)
    ensures ScanWindows(a + b, screen, template, confidence)
         == Then(ScanWindows(a, screen, template, confidence), ScanWindows(b, screen, template, confidence))
    decreases |b|
  {
    if b == [] {
      assert a + b == a;
      match ScanWindows(a, screen, template, confidence)
      case Failure(_) =>
      case Success(h) => assert h + [] == h;
    } else {
      var b' := b[..|b| - 1];
      assert (a + b)[..|a + b| - 1] == a + b';
      assert (a + b)[|a + b| - 1] == b[|b| - 1];
      ScanWindowsAppend(a, b', screen, template, confidence);
      match ScanWindows(a, screen, template, confidence)
      case Failure(_) =>
      case Success(h) =>
        match ScanWindows(b', screen, template, confidence)
        case Failure(_) =>
        case Success(h') =>
          var w := b[|b| - 1];
          match WindowVerdict(w, screen(w.hwnd), template, confidence)
          case Skip =>
          case Miss =>
          case Fault(_) =>
          case Found(p) => assert h + h' + [Hit(w.title, p)] == h + (h' + [Hit(w.title, p)]);
    }
  }

  /** A window whose capture fails is skipped; the windows after it are still scanned. */
  lemma FailedCaptureIsSkipped(a: seq<LdWindow>, w: LdWindow, b: seq<LdWindow>, screen: int -> Capture, template: Size, confidence: real)
    requires screen(w.hwnd) == NoImage
    ensures ScanWindows(a + [w] + b, screen, template, confidence) == ScanWindows(a + b, screen, template, confidence)
  {
    ScanWindowsAppend(a + [w], b, screen, template, confidence);
    ScanWindowsAppend(a, [w], screen, template, confidence);
    ScanWindowsAppend(a, b, screen, template, confidence);
    assert [w][..0] == [];
    match ScanWindows(a, screen, template, confidence)
    case Failure(_) =>
    case Success(h) => assert h + [] == h;
  }

  /**
   * The scan fails exactly when some window faults; otherwise every result is
   * a window of the list that was found, and every found window is a result.
   */
  lemma {:induction false} ScanWindowsOutcome(ws: seq<LdWindow>, screen: int -> Capture, template: Size, confidence: real)
    ensures var r := ScanWindows(ws, screen, template, confidence);
      && (r.Failure? <==> exists i :: 0 <= i < |ws| && WindowVerdict(ws[i], screen(ws[i].hwnd), template, confidence).Fault?)
      && (r.Success? ==> forall h :: h in r.value <==>
            exists i :: 0 <= i < |ws| && h.title == ws[i].title
                     && WindowVerdict(ws[i], screen(ws[i].hwnd), template, confidence) == Found(h.center))
  {
    if ws != [] {
      var p := ws[..|ws| - 1];
      var w := ws[|ws| - 1];
      ScanWindowsOutcome(p, screen, template, confidence);
      assert forall i :: 0 <= i < |p| ==> p[i] == ws[i];
      var v := WindowVerdict(w, screen(w.hwnd), template, confidence);
      var r := ScanWindows(ws, screen, template, confidence);
      match ScanWindows(p, screen, template, confidence)
      case Failure(e) =>
        assert r == Failure(e);
      case Success(hits) =>
        if v.Fault? {
          assert r.Failure?;
        } else {
          assert r.Success?;
          assert forall i :: 0 <= i < |ws| ==> i < |p| || ws[i] == w;
          if v.Found? {
            assert r.value == hits + [Hit(w.title, v.center)];
          } else {
            assert r.value == hits;
          }
        }
    }
  }

  /** Once a prefix of the windows has raised, the whole scan raises the same error. */
  lemma {:induction false} ScanFailureFromPrefix(ws: seq<LdWindow>, i: nat, screen: int -> Capture, template: Size, confidence: real)
    requires i <= |ws|
    requires ScanWindows(ws[..i], screen, template, confidence).Failure?
    ensures ScanWindows(ws, screen, template, confidence) == ScanWindows(ws[..i], screen, template, confidence)
  {
    ScanWindowsAppend(ws[..i], ws[i..], screen, template, confidence);
    assert ws[..i] + ws[i..] == ws;
  }

  // ---------------------------------------------------------------------------
  // find_center

  /**
   * `find_center(image_path, window_title, confidence)`, with the image file
   * given as `template` (None when `cv2.imread` cannot read it).
   */
  function FindCenterSpec(desktop: seq<WindowRecord>, screen: int -> Capture, template: Option<Size>,
                          windowTitle: Option<string>, confidence: real): FindResult
  {
    match OrderByIndex(LdCandidates(desktop))
    case Failure(e) => Raised(e)
    case Success(all) =>
      if all == [] then NoWindows
      else
        var ws := if windowTitle.Some? && windowTitle.value != "" then Narrow(all, windowTitle.value) else all;
        if ws == [] then TitleNotFound
        else if template.None? then TemplateUnreadable
        else match ScanWindows(ws, screen, template.value, confidence)
          case Failure(e) => Raised(e)
          case Success(hits) => Hits(hits)
  }

  /** Ordering keeps the set of windows: the same windows, only in index order. */
  lemma OrderByIndexKeepsWindows(ws: seq<LdWindow>)
    requires OrderByIndex(ws).Success?
    ensures forall v :: v in OrderByIndex(ws).value <==> v in ws
  {
    OrderByIndexSortsStably(ws);
    var r := OrderByIndex(ws).value;
    forall v ensures v in r <==> v in ws {
      assert v in r <==> v in multiset(r);
      assert v in ws <==> v in multiset(ws);
    }
  }

  /** Narrowing leaves nothing exactly when no window bears the title. */
  lemma NarrowEmptyIff(ws: seq<LdWindow>, title: string)
    ensures Narrow(ws, title) == [] <==> forall v :: v in ws ==> v.title != title
  {
    var r := Narrow(ws, title);
    if r != [] {
      assert r[0] in r;
    }
  }

  /** A non-empty list of collected windows orders into a non-empty list, when it orders at all. */
  lemma OrderedNonEmpty(ld: seq<LdWindow>)
    requires ld != [] && OrderByIndex(ld).Success?
    ensures OrderByIndex(ld).value != []
  {
    OrderByIndexKeepsWindows(ld);
    assert ld[0] in ld;
  }

  lemma FindCenterNoWindows(desktop: seq<WindowRecord>, screen: int -> Capture, template: Option<Size>,
                            windowTitle: Option<string>, confidence: real)
    ensures FindCenterSpec(desktop, screen, template, windowTitle, confidence) == NoWindows <==> LdCandidates(desktop) == []
  {
    var ld := LdCandidates(desktop);
    if ld == [] {
      OrderOfNoWindows();
    } else {
      match OrderByIndex(ld)
      case Failure(_) =>
      case Success(all) =>
        OrderedNonEmpty(ld);
        assert FindCenterSpec(desktop, screen, template, windowTitle, confidence) in {TitleNotFound, TemplateUnreadable}
          || FindCenterSpec(desktop, screen, template, windowTitle, confidence).Raised?
          || FindCenterSpec(desktop, screen, template, windowTitle, confidence).Hits?;
    }
  }

  /** With no emulator window, the ordering succeeds with nothing. */
  lemma OrderOfNoWindows()
    ensures OrderByIndex([]) == Success([])
  {
  }

  lemma FindCenterTitleNotFound(desktop: seq<WindowRecord>, screen: int -> Capture, template: Option<Size>,
                                windowTitle: Option<string>, confidence: real)
    ensures var ld := LdCandidates(desktop);
      FindCenterSpec(desktop, screen, template, windowTitle, confidence) == TitleNotFound <==>
        && ld != [] && OrderByIndex(ld).Success?
        && windowTitle.Some? && windowTitle.value != ""
        && forall v :: v in ld ==> v.title != windowTitle.value
  {
    var ld := LdCandidates(desktop);
    if ld != [] && OrderByIndex(ld).Success? {
      OrderedNonEmpty(ld);
      OrderByIndexKeepsWindows(ld);
      if windowTitle.Some? && windowTitle.value != "" {
        NarrowEmptyIff(OrderByIndex(ld).value, windowTitle.value);
      }
    }
  }

  lemma FindCenterTemplateUnreadable(desktop: seq<WindowRecord>, screen: int -> Capture, template: Option<Size>,
                                     windowTitle: Option<string>, confidence: real)
    ensures var ld := LdCandidates(desktop);
      var titled := windowTitle.Some? && windowTitle.value != "";
      FindCenterSpec(desktop, screen, template, windowTitle, confidence) == TemplateUnreadable <==>
        && OrderByIndex(ld).Success? && template.None?
        && exists v :: v in ld && (titled ==> v.title == windowTitle.value)
  {
    var ld := LdCandidates(desktop);
    if ld != [] && OrderByIndex(ld).Success? {
      OrderedNonEmpty(ld);
      OrderByIndexKeepsWindows(ld);
      if windowTitle.Some? && windowTitle.value != "" {
        NarrowEmptyIff(OrderByIndex(ld).value, windowTitle.value);
      } else {
        assert ld[0] in ld;
      }
    }
  }

  /**
   * None comes back when no emulator window is open, when a requested title
   * matches none of them, or when the template cannot be read; a list comes
   * back otherwise, unless something raised.
   */
  lemma FindCenterReturnsNone(desktop: seq<WindowRecord>, screen: int -> Capture, template: Option<Size>,
                              windowTitle: Option<string>, confidence: real)
    ensures var r := FindCenterSpec(desktop, screen, template, windowTitle, confidence);
      var ld := LdCandidates(desktop);
      var titled := windowTitle.Some? && windowTitle.value != "";
      && (r == NoWindows <==> ld == [])
      && (r == TitleNotFound <==>
            && ld != [] && OrderByIndex(ld).Success?
            && titled && forall v :: v in ld ==> v.title != windowTitle.value)
      && (r == TemplateUnreadable <==>
            && OrderByIndex(ld).Success? && template.None?
            && exists v :: v in ld && (titled ==> v.title == windowTitle.value))
  {
    FindCenterNoWindows(desktop, screen, template, windowTitle, confidence);
    FindCenterTitleNotFound(desktop, screen, template, windowTitle, confidence);
    FindCenterTemplateUnreadable(desktop, screen, template, windowTitle, confidence);
  }

  /** With a title, every reported window carries exactly that title. */
  lemma HitsHaveRequestedTitle(desktop: seq<WindowRecord>, screen: int -> Capture, template: Option<Size>,
                               title: string, confidence: real)
    requires title != ""
    requires FindCenterSpec(desktop, screen, template, Some(title), confidence).Hits?
    ensures forall h :: h in FindCenterSpec(desktop, screen, template, Some(title), confidence).hits ==> h.title == title
  {
    var all := OrderByIndex(LdCandidates(desktop)).value;
    var ws := Narrow(all, title);
    ScanWindowsOutcome(ws, screen, template.value, confidence);
    forall h | h in FindCenterSpec(desktop, screen, template, Some(title), confidence).hits
      ensures h.title == title
    {
      var i :| 0 <= i < |ws| && h.title == ws[i].title
               && WindowVerdict(ws[i], screen(ws[i].hwnd), template.value, confidence) == Found(h.center);
      assert ws[i] in ws;
    }
  }

  /** The scan of a list of windows depends only on the captures of those windows. */
  lemma {:induction false} ScanWindowsLocal(ws: seq<LdWindow>, s1: int -> Capture, s2: int -> Capture,
                                            template: Size, confidence: real)
    requires forall v :: v in ws ==> s1(v.hwnd) == s2(v.hwnd)
    ensures ScanWindows(ws, s1, template, confidence) == ScanWindows(ws, s2, template, confidence)
  {
    if ws != [] {
      var p := ws[..|ws| - 1];
      assert forall v :: v in p ==> v in ws;
      assert ws[|ws| - 1] in ws;
      ScanWindowsLocal(p, s1, s2, template, confidence);
    }
  }

  /**
   * With a title, only the windows bearing it are captured: two screens that
   * agree on every emulator window with that title give the same result, so
   * another window's failed or raising capture never matters.
   */
  lemma FindCenterScansOnlyTitled(desktop: seq<WindowRecord>, s1: int -> Capture, s2: int -> Capture,
                                  template: Option<Size>, title: string, confidence: real)
    requires title != ""
    requires forall v :: v in LdCandidates(desktop) && v.title == title ==> s1(v.hwnd) == s2(v.hwnd)
    ensures FindCenterSpec(desktop, s1, template, Some(title), confidence)
         == FindCenterSpec(desktop, s2, template, Some(title), confidence)
  {
    var ld := LdCandidates(desktop);
    if OrderByIndex(ld).Success? {
      var all := OrderByIndex(ld).value;
      OrderByIndexKeepsWindows(ld);
      var ws := Narrow(all, title);
      if template.Some? {
        ScanWindowsLocal(ws, s1, s2, template.value, confidence);
      }
    }
  }

  /**
   * With a title, the results are exactly the emulator windows bearing that
   * title in which the template is found, each at its centre point.
   */
  lemma FindCenterHitsComplete(desktop: seq<WindowRecord>, screen: int -> Capture, template: Option<Size>,
                               title: string, confidence: real)
    requires title != ""
    requires FindCenterSpec(desktop, screen, template, Some(title), confidence).Hits?
    ensures forall h :: h in FindCenterSpec(desktop, screen, template, Some(title), confidence).hits <==>
      && h.title == title
      && exists v :: v in LdCandidates(desktop) && v.title == title
                  && WindowVerdict(v, screen(v.hwnd), template.value, confidence) == Found(h.center)
  {
    var ld := LdCandidates(desktop);
    var all := OrderByIndex(ld).value;
    OrderByIndexKeepsWindows(ld);
    var ws := Narrow(all, title);
    ScanWindowsOutcome(ws, screen, template.value, confidence);
    var hits := FindCenterSpec(desktop, screen, template, Some(title), confidence).hits;
    forall h
      ensures h in hits <==>
        && h.title == title
        && exists v :: v in ld && v.title == title
                    && WindowVerdict(v, screen(v.hwnd), template.value, confidence) == Found(h.center)
    {
      if h in hits {
        var i :| 0 <= i < |ws| && h.title == ws[i].title
                 && WindowVerdict(ws[i], screen(ws[i].hwnd), template.value, confidence) == Found(h.center);
        assert ws[i] in ws;
      }
      if h.title == title && exists v :: v in ld && v.title == title
                                      && WindowVerdict(v, screen(v.hwnd), template.value, confidence) == Found(h.center) {
        var v :| v in ld && v.title == title && WindowVerdict(v, screen(v.hwnd), template.value, confidence) == Found(h.center);
        assert v in ws;
        var i :| 0 <= i < |ws| && ws[i] == v;
      }
    }
  }

  /** The body of the windows loop for one window: capture, scale, the methods loop, the threshold. */
  method ScanWindow(w: LdWindow, shot: Capture, t: Size, confidence: real) returns (v: Verdict)
    ensures v == WindowVerdict(w, shot, t, confidence)
  {
    if shot.NoImage? {
      return Skip;
    }
    if shot.CaptureFault? {
      return Fault(CaptureError(w.title));
    }
    var size := ScaledSize(t, shot.width, shot.height);
    if size.width == 0 || size.height == 0 {
      return Fault(EmptyResize(w.title));
    }
    if shot.matching.CvFailure? {
      return Fault(CvError(w.title));
    }
    var maxVal, bestLoc := BestOfMethods(MethodPeaks(shot.matching));
    if maxVal >= confidence {
      if bestLoc.None? {
        return Fault(NoBestLocation(w.title));
      }
      return Found(Center(bestLoc.value, size));
    }
    return Miss;
  }

  /** `find_center`: the windows loop appends to `results`, the methods loop keeps the running best. */
  method FindCenter(desktop: seq<WindowRecord>, screen: int -> Capture, template: Option<Size>,
                    windowTitle: Option<string>, confidence: real) returns (r: FindResult)
    ensures r == FindCenterSpec(desktop, screen, template, windowTitle, confidence)
  {
    var listed := FindLdplayerWindows(desktop);
    if listed.Failure? {
      return Raised(listed.error);
    }
    var ws := listed.value;
    if ws == [] {
      return NoWindows;
    }
    if windowTitle.Some? && windowTitle.value != "" {
      ws := Narrow(ws, windowTitle.value);
      if ws == [] {
        return TitleNotFound;
      }
    }
    if template.None? {
      return TemplateUnreadable;
    }
    var scanned := ScanAll(ws, screen, template.value, confidence);
    match scanned
    case Failure(e) => return Raised(e);
    case Success(hits) => return Hits(hits);
  }

  /** The windows loop of `find_center`: results appended in window order; an exception leaves the loop. */
  method ScanAll(ws: seq<LdWindow>, screen: int -> Capture, t: Size, confidence: real)
    returns (r: Result<seq<Hit>, ScanError>)
    ensures r == ScanWindows(ws, screen, t, confidence)
  {
    var results: seq<Hit> := [];
    for i := 0 to |ws|
      invariant ScanWindows(ws[..i], screen, t, confidence) == Success(results)
    {
      var w := ws[i];
      assert ws[..i + 1][..i] == ws[..i];
      assert ws[..i + 1][i] == w;
      var v := ScanWindow(w, screen(w.hwnd), t, confidence);
      match v
      case Skip =>
      case Miss =>
      case Found(p) =>
        results := results + [Hit(w.title, p)];
      case Fault(e) =>
        ScanFailureFromPrefix(ws, i + 1, screen, t, confidence);
        return Failure(e);
    }
    assert ws[..|ws|] == ws;
    return Success(results);
  }
}
