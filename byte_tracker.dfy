/** The video-tracking pipeline of video_tracking_demo/tracking/byte_tracker.py: the frame-rate
    guard, the codec fallback for the output writer, class-name resolution, the two-class label
    normaliser, and the per-frame aggregation of tracker output into the JSON results.

    The detector/tracker is an input sequence of frames; the video capture is an input record
    of what it reports; whether the writer opens for a request is an input predicate. */
module ByteTracker {
  import opened Wrappers
  import opened PyText
  import opened PyNum
  import PyPath

  // ---------------------------------------------------------------- _safe_fps

  /** What `float(val)` makes of the frame rate the capture reports: not a number at all,
      a NaN or infinity, or a finite value. */
  datatype RawFps = NotNumeric | NotFinite | Finite(value: real)

  const DefaultFps: real := 25.0

  /** `_safe_fps`: a usable frame rate passes through unchanged, anything else becomes 25.0. */
  function SafeFps(raw: RawFps): (fps: real)
    ensures fps > 0.0
    ensures raw.Finite? && raw.value > 0.0 ==> fps == raw.value
    ensures fps != DefaultFps ==> raw == Finite(fps)
  {
    if raw.Finite? && raw.value > 0.0 then raw.value else DefaultFps
  }

  /** Guarding a guarded rate changes nothing. */
  lemma SafeFpsIdempotent(raw: RawFps)
    ensures SafeFps(Finite(SafeFps(raw))) == SafeFps(raw)
  {
  }

  /** The documented examples: 0, -5, NaN and "abc" give 25.0; 30 and 59.94 pass through. */
  lemma SafeFpsExamples()
    ensures SafeFps(Finite(0.0)) == 25.0 && SafeFps(Finite(-5.0)) == 25.0
    ensures SafeFps(NotFinite) == 25.0 && SafeFps(NotNumeric) == 25.0
    ensures SafeFps(Finite(30.0)) == 30.0 && SafeFps(Finite(59.94)) == 59.94
  {
  }

  // ---------------------------------------------------------------- _open_writer

  /** A (fourcc, extension) pair the writer may be opened with. */
  datatype Candidate = Candidate(fourcc: string, ext: string)

  /** The codecs in the order they are tried. */
  const Candidates: seq<Candidate> :=
    [Candidate("mp4v", ".mp4"), Candidate("XVID", ".avi"), Candidate("avc1", ".mp4")]

  /** What `cv2.VideoWriter(...)` is asked to open: path, fourcc, rate and frame size. */
  datatype WriterRequest = WriterRequest(path: string, fourcc: string, fps: real, width: int, height: int)

  /** What `_open_writer` ends with: the path and codec of the writer that opened, all
      candidates failing (`(None, None, None)`), or the ValueError `with_suffix` raises for a
      base path without a final component. */
  datatype WriterOutcome = Opened(path: string, fourcc: string) | NoneOpened | BadBasePath

  /** `max(fps, 1.0)`: the rate handed to the writer. */
  function WriterRate(fps: real): (rate: real)
    ensures rate >= 1.0 && rate >= fps
    ensures rate == fps || rate == 1.0
  {
    if fps >= 1.0 then fps else 1.0
  }

  /** The candidate at index `i` is tried and its writer opens. */
  predicate CandidateOpens(base: string, fps: real, width: int, height: int,
                           opens: WriterRequest -> bool, i: nat)
    requires i < |Candidates|
  {
    match PyPath.WithSuffix(base, Candidates[i].ext)
    case None => false
    case Some(path) => opens(WriterRequest(path, Candidates[i].fourcc, WriterRate(fps), width, height))
  }

  /** The outcome of trying the candidates from index `i` on, in order. */
  function SelectWriter(base: string, fps: real, width: int, height: int,
                        opens: WriterRequest -> bool, i: nat): WriterOutcome
    requires i <= |Candidates|
    decreases |Candidates| - i
  {
    if i == |Candidates| then NoneOpened
    else
      match PyPath.WithSuffix(base, Candidates[i].ext)
      case None => BadBasePath
      case Some(path) =>
        if opens(WriterRequest(path, Candidates[i].fourcc, WriterRate(fps), width, height))
        then Opened(path, Candidates[i].fourcc)
        else SelectWriter(base, fps, width, height, opens, i + 1)
  }

  /** `_open_writer`: tries the candidates in order and stops at the first writer that opens. */
  method OpenWriter(base: string, fps: real, width: int, height: int, opens: WriterRequest -> bool)
    returns (outcome: WriterOutcome)
    ensures outcome == SelectWriter(base, fps, width, height, opens, 0)
  {
    for i := 0 to |Candidates|
      invariant SelectWriter(base, fps, width, height, opens, 0)
             == SelectWriter(base, fps, width, height, opens, i)
    {
      var candidate := Candidates[i];
      var outPath := PyPath.WithSuffix(base, candidate.ext);
      if outPath.None? {
        return BadBasePath;
      }
      if opens(WriterRequest(outPath.value, candidate.fourcc, WriterRate(fps), width, height)) {
        return Opened(outPath.value, candidate.fourcc);
      }
    }
    return NoneOpened;
  }

  lemma CandidateExtensionsAreExtensions(i: nat)
    requires i < |Candidates|
    ensures PyPath.IsExtension(Candidates[i].ext)
  {
    var ext := Candidates[i].ext;
    assert ext == ".mp4" || ext == ".avi";
  }

  /** Reference definition of the fallback: the index of the first candidate from `i` on whose
      writer opens, or `|Candidates|` when none does. */
  function FirstOpening(base: string, fps: real, width: int, height: int,
                        opens: WriterRequest -> bool, i: nat): (j: nat)
    requires i <= |Candidates|
    ensures i <= j <= |Candidates|
    ensures forall k | i <= k < j :: !CandidateOpens(base, fps, width, height, opens, k)
    ensures j < |Candidates| ==> CandidateOpens(base, fps, width, height, opens, j)
    decreases |Candidates| - i
  {
    if i == |Candidates| then i
    else if CandidateOpens(base, fps, width, height, opens, i) then i
    else FirstOpening(base, fps, width, height, opens, i + 1)
  }

  /** A candidate's path exists exactly when the base path has a final component, and then it
      carries the candidate's extension. */
  lemma CandidatePath(base: string, i: nat)
    requires i < |Candidates|
    ensures PyPath.WithSuffix(base, Candidates[i].ext).None? <==> PyPath.Parts(base) == []
    ensures PyPath.WithSuffix(base, Candidates[i].ext).Some? ==>
      PyPath.Suffix(PyPath.Basename(PyPath.WithSuffix(base, Candidates[i].ext).value)) == Candidates[i].ext
  {
    CandidateExtensionsAreExtensions(i);
    PyPath.WithSuffixSetsSuffix(base, Candidates[i].ext);
  }

  /** Reference outcome from index `i` on: refusal when the base path has no final component,
      else the first candidate that opens, on the base path with that candidate's extension. */
  function FirstOpeningOutcome(base: string, fps: real, width: int, height: int,
                               opens: WriterRequest -> bool, i: nat): WriterOutcome
    requires i <= |Candidates|
  {
    if PyPath.Parts(base) == [] then BadBasePath
    else
      var j := FirstOpening(base, fps, width, height, opens, i);
      if j == |Candidates| then NoneOpened
      else
        match PyPath.WithSuffix(base, Candidates[j].ext)
        case None => BadBasePath
        case Some(path) => Opened(path, Candidates[j].fourcc)
  }

  /** The loop's outcome agrees with the reference definition from index `i` on. */
  lemma {:induction false} SelectWriterIsFirstOpening(base: string, fps: real, width: int, height: int,
                                                      opens: WriterRequest -> bool, i: nat)
    requires i <= |Candidates|
    requires i > 0 ==> PyPath.Parts(base) != []
    ensures SelectWriter(base, fps, width, height, opens, i) == FirstOpeningOutcome(base, fps, width, height, opens, i)
    decreases |Candidates| - i
  {
    if i < |Candidates| {
      CandidatePath(base, i);
      var here := SelectWriter(base, fps, width, height, opens, i);
      var expected := FirstOpeningOutcome(base, fps, width, height, opens, i);
      if PyPath.WithSuffix(base, Candidates[i].ext).None? {
        assert here == BadBasePath && expected == BadBasePath;
      } else if CandidateOpens(base, fps, width, height, opens, i) {
        assert FirstOpening(base, fps, width, height, opens, i) == i;
      } else {
        assert here == SelectWriter(base, fps, width, height, opens, i + 1);
        assert expected == FirstOpeningOutcome(base, fps, width, height, opens, i + 1);
        SelectWriterIsFirstOpening(base, fps, width, height, opens, i + 1);
      }
    }
  }

  /** `_open_writer` as a whole: a base path without a final component is refused; otherwise
      the first of mp4v/.mp4, XVID/.avi, avc1/.mp4 whose writer opens is used, on the base path
      with that candidate's extension, and nothing opens only when every candidate fails. */
  lemma SelectWriterFirstSuccess(base: string, fps: real, width: int, height: int,
                                 opens: WriterRequest -> bool)
    ensures SelectWriter(base, fps, width, height, opens, 0).BadBasePath? <==> PyPath.Parts(base) == []
    ensures SelectWriter(base, fps, width, height, opens, 0).NoneOpened? <==>
      PyPath.Parts(base) != [] &&
      forall j | 0 <= j < |Candidates| :: !CandidateOpens(base, fps, width, height, opens, j)
    ensures SelectWriter(base, fps, width, height, opens, 0).Opened? ==>
      var j := FirstOpening(base, fps, width, height, opens, 0);
      && j < |Candidates|
      && CandidateOpens(base, fps, width, height, opens, j)
      && (forall k | 0 <= k < j :: !CandidateOpens(base, fps, width, height, opens, k))
      && SelectWriter(base, fps, width, height, opens, 0).fourcc == Candidates[j].fourcc
      && PyPath.WithSuffix(base, Candidates[j].ext) == Some(SelectWriter(base, fps, width, height, opens, 0).path)
      && PyPath.Suffix(PyPath.Basename(SelectWriter(base, fps, width, height, opens, 0).path))
         == Candidates[j].ext
  {
    SelectWriterIsFirstOpening(base, fps, width, height, opens, 0);
    var r := SelectWriter(base, fps, width, height, opens, 0);
    var j := FirstOpening(base, fps, width, height, opens, 0);
    if PyPath.Parts(base) == [] {
      assert r == BadBasePath;
    } else if j == |Candidates| {
      assert r == NoneOpened;
    } else {
      CandidatePath(base, j);
      var path := PyPath.WithSuffix(base, Candidates[j].ext);
      assert path.Some?;
      assert r == Opened(path.value, Candidates[j].fourcc);
    }
  }

  // ---------------------------------------------------------------- _get_class_name

  /** A key of the detector's label dictionary: an integer or a string. */
  datatype NameKey = IntKey(n: int) | StrKey(s: string)

  /** The detector's `names` table: a list or tuple indexed by class id, a dictionary with
      integer or string keys, or anything else (including absent). Entries are the text
      `str(...)` gives for them; an entry counts as false in Python exactly when it is "". */
  datatype NameTable = Sequence(names: seq<string>) | Mapping(entries: map<NameKey, string>) | Unusable

  /** The name synthesised for a class id the table does not resolve: "class_<id>". */
  function Placeholder(clsId: int): string {
    "class_" + IntToString(clsId)
  }

  function TableValues(table: NameTable): set<string> {
    match table
    case Sequence(names) => set k | 0 <= k < |names| :: names[k]
    case Mapping(entries) => entries.Values
    case Unusable => {}
  }

  /** `_get_class_name`. A list answers for ids in range only (a negative id never wraps
      around). A dictionary is asked for the integer key first; an absent or empty entry there
      falls through to the decimal-string key, whose entry is returned as it is (even ""), and
      the placeholder is the default when neither key is present. */
  function GetClassName(table: NameTable, clsId: int): (name: string)
    ensures name in TableValues(table) || name == Placeholder(clsId)
  {
    match table
    case Sequence(names) =>
      if 0 <= clsId < |names| then names[clsId] else Placeholder(clsId)
    case Mapping(entries) =>
      var byInt := if IntKey(clsId) in entries then entries[IntKey(clsId)] else "";
      var strKey := StrKey(IntToString(clsId));
      if byInt != "" then byInt
      else if strKey in entries then entries[strKey]
      else Placeholder(clsId)
    case Unusable => Placeholder(clsId)
  }

  /** A list or tuple table: in-range ids are looked up, every other id (negative ones too)
      gets the placeholder. */
  lemma SequenceLookup(names: seq<string>, clsId: int)
    ensures 0 <= clsId < |names| ==> GetClassName(Sequence(names), clsId) == names[clsId]
    ensures clsId < 0 || |names| <= clsId ==> GetClassName(Sequence(names), clsId) == Placeholder(clsId)
  {
  }

  /** A dictionary table: the integer key wins when its entry is non-empty; otherwise the
      string key decides; with neither key the placeholder is returned. */
  lemma MappingLookup(entries: map<NameKey, string>, clsId: int)
    ensures IntKey(clsId) in entries && entries[IntKey(clsId)] != "" ==>
      GetClassName(Mapping(entries), clsId) == entries[IntKey(clsId)]
    ensures (IntKey(clsId) !in entries || entries[IntKey(clsId)] == "") &&
            StrKey(IntToString(clsId)) in entries ==>
      GetClassName(Mapping(entries), clsId) == entries[StrKey(IntToString(clsId))]
    ensures (IntKey(clsId) !in entries || entries[IntKey(clsId)] == "") &&
            StrKey(IntToString(clsId)) !in entries ==>
      GetClassName(Mapping(entries), clsId) == Placeholder(clsId)
  {
  }

  /** The placeholder embeds the id recoverably: different ids never share a placeholder. */
  lemma PlaceholderInjective(a: int, b: int)
    requires Placeholder(a) == Placeholder(b)
    ensures a == b
  {
    assert IntToString(a) == Placeholder(a)[6..];
    assert IntToString(b) == Placeholder(b)[6..];
    IntToStringInjective(a, b);
  }

  // ---------------------------------------------------------------- _map_binary

  /** The two canonical categories every detector class collapses into, written to the JSON
      results as "pedestrian" and "vehicle". */
  datatype Category = Pedestrian | Vehicle

  /** A drawing colour in OpenCV's blue-green-red order. */
  datatype Color = Color(blue: int, green: int, red: int)

  /** Green for pedestrians, blue for vehicles. */
  function ColorOf(c: Category): Color {
    match c
    case Pedestrian => Color(0, 255, 0)
    case Vehicle => Color(255, 0, 0)
  }

  /** The substrings that mark a class name as a person. */
  const HumanTokens: seq<string> := ["person", "pedestrian", "people", "human"]

  lemma HumanTokensAreTokens()
    ensures forall k | 0 <= k < |HumanTokens| :: IsToken(HumanTokens[k])
    ensures forall k | 0 <= k < |HumanTokens| :: HumanTokens[k][0] == 'p' || HumanTokens[k][0] == 'h'
  {
    assert IsToken("person") && IsToken("pedestrian") && IsToken("people") && IsToken("human");
  }

  /** Lower-casing commutes with slicing. */
  lemma LowerSlice(s: string, a: nat, b: nat)
    requires a <= b <= |s|
    ensures Lower(s[a..b]) == Lower(s)[a..b]
  {
  }

  /** An occurrence of a whitespace-free token in the lowered name lies inside the part that
      `strip` keeps. */
  lemma OccurrenceInsideStrip(s: string, t: string, j: int)
    requires IsToken(t)
    requires OccursAt(Lower(s), t, j)
    ensures LeadingSpaces(s) <= j && j + |t| <= LeadingSpaces(s) + |Strip(s)|
  {
    var a, r, low := LeadingSpaces(s), Strip(s), Lower(s);
    var e := j + |t| - 1;
    assert low[j..j + |t|][0] == low[j];
    assert low[j..j + |t|][|t| - 1] == low[e];
    LowerCharKeepsSpace(s[j]);
    LowerCharKeepsSpace(s[e]);
    forall k | 0 <= k < a ensures IsSpace(s[k]) {
      assert s[..a][k] == s[k];
    }
    forall k | a + |r| <= k < |s| ensures IsSpace(s[k]) {
      assert s[a + |r|..][k - a - |r|] == s[k];
    }
  }

  /** An occurrence inside a slice is an occurrence in the whole, shifted by the slice's start. */
  lemma OccursInSlice(x: string, t: string, a: nat, b: nat, i: int)
    requires a <= b <= |x|
    ensures OccursAt(x[a..b], t, i) <==> 0 <= i && a + i + |t| <= b && OccursAt(x, t, a + i)
  {
    if 0 <= i && a + i + |t| <= b {
      var y := x[a..b];
      var u, w := y[i..i + |t|], x[a + i..a + i + |t|];
      forall k | 0 <= k < |t| ensures u[k] == w[k] {
        assert u[k] == y[i + k] == x[a + i + k];
      }
      assert u == w;
    }
  }

  /** Lowering a slice gives the same slice of the lowered string. */
  lemma LowerOfSlice(s: string, r: string, a: nat)
    requires a + |r| <= |s| && r == s[a..a + |r|]
    ensures a + |r| <= |Lower(s)| && Lower(r) == Lower(s)[a..a + |r|]
  {
    LowerSlice(s, a, a + |r|);
  }

  /** An occurrence in a slice `y` of `x` starting at `a` is one in `x`, shifted by `a`. */
  lemma OccursOutOfSlice(x: string, y: string, a: nat, t: string, i: int)
    requires a + |y| <= |x| && y == x[a..a + |y|]
    requires OccursAt(y, t, i)
    ensures OccursAt(x, t, a + i)
  {
    OccursInSlice(x, t, a, a + |y|, i);
  }

  /** An occurrence in `x` that lies inside its slice `y` starting at `a` is one in `y`. */
  lemma OccursIntoSlice(x: string, y: string, a: nat, t: string, j: int)
    requires a + |y| <= |x| && y == x[a..a + |y|]
    requires OccursAt(x, t, j) && a <= j && j + |t| <= a + |y|
    ensures OccursAt(y, t, j - a)
  {
    OccursInSlice(x, t, a, a + |y|, j - a);
  }

  /** Surrounding whitespace never decides the match: a whitespace-free token occurs in the
      lowered, stripped name exactly when it occurs in the lowered name. */
  lemma ContainsIgnoresSurroundingSpace(s: string, t: string)
    requires IsToken(t)
    ensures Contains(Lower(Strip(s)), t) <==> exists i :: OccursAt(Lower(s), t, i)
  {
    var x, y, a := Lower(s), Lower(Strip(s)), LeadingSpaces(s);
    LowerOfSlice(s, Strip(s), a);
    ContainsIffOccurs(y, t);
    if Contains(y, t) {
      var i :| OccursAt(y, t, i);
      OccursOutOfSlice(x, y, a, t, i);
    }
    if exists j :: OccursAt(x, t, j) {
      var j :| OccursAt(x, t, j);
      OccurrenceInsideStrip(s, t, j);
      OccursIntoSlice(x, y, a, t, j);
    }
  }

  /** `_map_binary`: the category and its fixed colour for a raw class name. */
  function MapBinary(name: string): (result: (Category, Color))
    ensures result.1 == ColorOf(result.0)
  {
    var n := Lower(Strip(name));
    if Contains(n, "person") || Contains(n, "pedestrian") || Contains(n, "people") || Contains(n, "human")
    then (Pedestrian, ColorOf(Pedestrian))
    else (Vehicle, ColorOf(Vehicle))
  }

  /** A name is a pedestrian exactly when one of the person tokens occurs in it, ignoring
      letter case and surrounding whitespace; every other name is a vehicle. */
  lemma MapBinaryClassifies(name: string)
    ensures MapBinary(name).0 == Pedestrian <==>
      exists k, i | 0 <= k < |HumanTokens| :: OccursAt(Lower(name), HumanTokens[k], i)
    ensures MapBinary(name).0 == Vehicle <==>
      forall k, i | 0 <= k < |HumanTokens| :: !OccursAt(Lower(name), HumanTokens[k], i)
  {
    HumanTokensAreTokens();
    ContainsIgnoresSurroundingSpace(name, HumanTokens[0]);
    ContainsIgnoresSurroundingSpace(name, HumanTokens[1]);
    ContainsIgnoresSurroundingSpace(name, HumanTokens[2]);
    ContainsIgnoresSurroundingSpace(name, HumanTokens[3]);
  }

  /** A name in which no character lowers to 'p' or 'h' (the first letters of the person
      tokens) is a vehicle. */
  lemma NoTokenInitialIsVehicle(name: string)
    requires forall k | 0 <= k < |name| :: Lower(name)[k] != 'p' && Lower(name)[k] != 'h'
    ensures MapBinary(name).0 == Vehicle
  {
    HumanTokensAreTokens();
    forall k, i | 0 <= k < |HumanTokens| ensures !OccursAt(Lower(name), HumanTokens[k], i) {
      var t := HumanTokens[k];
      if 0 <= i && i + |t| <= |name| {
        assert Lower(name)[i..i + |t|][0] == Lower(name)[i];
      }
    }
    MapBinaryClassifies(name);
  }

  /** A name whose lowered form starts with a person token is a pedestrian. */
  lemma LeadingTokenIsPedestrian(name: string, k: nat)
    requires k < |HumanTokens|
    requires StartsWith(Lower(name), HumanTokens[k])
    ensures MapBinary(name).0 == Pedestrian
  {
    assert OccursAt(Lower(name), HumanTokens[k], 0);
    MapBinaryClassifies(name);
  }

  /** Documented vehicle examples: "car" and "". */
  lemma MapBinaryCarExample()
    ensures MapBinary("car").0 == Vehicle && MapBinary("").0 == Vehicle
  {
    NoTokenInitialIsVehicle("car");
    NoTokenInitialIsVehicle("");
  }

  /** Documented vehicle example: "truck". */
  lemma MapBinaryTruckExample()
    ensures MapBinary("truck").0 == Vehicle
  {
    NoTokenInitialIsVehicle("truck");
  }

  /** Documented vehicle example: "bicycle". */
  lemma MapBinaryBicycleExample()
    ensures MapBinary("bicycle").0 == Vehicle
  {
    NoTokenInitialIsVehicle("bicycle");
  }

  /** Documented pedestrian example: "Person" (any letter case). */
  lemma MapBinaryPersonExample()
    ensures MapBinary("Person").0 == Pedestrian
  {
    var low := Lower("Person");
    assert low[0] == 'p' && low[1] == 'e' && low[2] == 'r' && low[3] == 's';
    assert low[4] == 'o' && low[5] == 'n';
    assert low[..6] == HumanTokens[0];
    LeadingTokenIsPedestrian("Person", 0);
  }

  /** Documented pedestrian example: "PEDESTRIAN". */
  lemma MapBinaryPedestrianExample()
    ensures MapBinary("PEDESTRIAN").0 == Pedestrian
  {
    var low := Lower("PEDESTRIAN");
    assert low[0] == 'p' && low[1] == 'e' && low[2] == 'd' && low[3] == 'e';
    assert low[4] == 's' && low[5] == 't' && low[6] == 'r' && low[7] == 'i';
    assert low[8] == 'a' && low[9] == 'n';
    assert low[..10] == HumanTokens[1];
    LeadingTokenIsPedestrian("PEDESTRIAN", 1);
  }

  /** Documented pedestrian example: "PEOPLE". */
  lemma MapBinaryPeopleExample()
    ensures MapBinary("PEOPLE").0 == Pedestrian
  {
    var low := Lower("PEOPLE");
    assert low[0] == 'p' && low[1] == 'e' && low[2] == 'o' && low[3] == 'p';
    assert low[4] == 'l' && low[5] == 'e';
    assert low[..6] == HumanTokens[2];
    LeadingTokenIsPedestrian("PEOPLE", 2);
  }

  /** Unknown class ids fall back to "class_<id>", which is always a vehicle. */
  lemma PlaceholderIsVehicle(clsId: int)
    ensures MapBinary(Placeholder(clsId)).0 == Vehicle
  {
    var p := Placeholder(clsId);
    var digits := IntToString(clsId);
    assert forall k | 0 <= k < |digits| :: IsDigit(digits[k]) || digits[k] == '-';
    forall k | 0 <= k < |p| ensures Lower(p)[k] != 'p' && Lower(p)[k] != 'h' {
      if k >= 6 { assert p[k] == digits[k - 6]; }
    }
    NoTokenInitialIsVehicle(p);
  }

  // ---------------------------------------------------------------- track_video

  /** A box in corner form as the tracker reports it, in float pixels. */
  datatype CornerBox = CornerBox(x1: real, y1: real, x2: real, y2: real)

  /** `result.boxes` of one frame: parallel arrays of corner boxes, track ids (absent when the
      tracker kept no identities), confidences and class ids, all as floats. */
  datatype TrackedBoxes = TrackedBoxes(xyxy: seq<CornerBox>, ids: Option<seq<real>>,
                                       conf: seq<real>, cls: seq<real>)

  /** One frame the tracker yields; `boxes` is None when it reports none. */
  datatype TrackerFrame = TrackerFrame(boxes: Option<TrackedBoxes>)

  /** A box in integer pixels: `[x1, y1, x2, y2]` of the JSON record. */
  datatype PixelBox = PixelBox(x1: int, y1: int, x2: int, y2: int)

  /** One object of a frame's JSON record. */
  datatype DetectionRecord = DetectionRecord(trackId: int, category: Category, confidence: real, bbox: PixelBox)

  /** One entry of the JSON results: the frame's number and its objects in tracker order. */
  datatype FrameResult = FrameResult(frameId: int, objects: seq<DetectionRecord>)

  /** The frame carries both boxes and identities, so its objects are recorded. */
  predicate HasTracks(f: TrackerFrame) {
    f.boxes.Some? && f.boxes.value.ids.Some?
  }

  /** How many (box, id, confidence, class) tuples `zip` yields: the shortest array's length. */
  function ZipLength(b: TrackedBoxes): (n: nat)
    requires b.ids.Some?
    ensures n <= |b.xyxy| && n <= |b.ids.value| && n <= |b.conf| && n <= |b.cls|
    ensures n == |b.xyxy| || n == |b.ids.value| || n == |b.conf| || n == |b.cls|
  {
    Min(Min(|b.xyxy|, |b.ids.value|), Min(|b.conf|, |b.cls|))
  }

  /** `map(int, box)`: each corner coordinate truncated toward zero. */
  function TruncBox(box: CornerBox): PixelBox {
    PixelBox(Trunc(box.x1), Trunc(box.y1), Trunc(box.x2), Trunc(box.y2))
  }

  /** The record made from the `k`-th zipped tuple: integer id, normalised class of the
      resolved name, the confidence as it is, and the box truncated to integers. */
  function RecordAt(table: NameTable, b: TrackedBoxes, k: nat): DetectionRecord
    requires b.ids.Some? && k < ZipLength(b)
  {
    DetectionRecord(
      Trunc(b.ids.value[k]),
      MapBinary(GetClassName(table, Trunc(b.cls[k]))).0,
      b.conf[k],
      TruncBox(b.xyxy[k]))
  }

  /** The objects of one frame: one record per zipped tuple, in tracker order, or none at all
      when the frame has no boxes or no identities. */
  function FrameObjects(table: NameTable, f: TrackerFrame): seq<DetectionRecord> {
    if HasTracks(f) then
      var b := f.boxes.value;
      seq(ZipLength(b), k requires 0 <= k < ZipLength(b) => RecordAt(table, b, k))
    else []
  }

  /** The results of a whole run: frame `k` (from 0) gets number `k + 1`. */
  function TrackingRun(table: NameTable, frames: seq<TrackerFrame>): seq<FrameResult> {
    seq(|frames|, k requires 0 <= k < |frames| => FrameResult(k + 1, FrameObjects(table, frames[k])))
  }

  /** Frame numbers run 1, 2, ..., N with no gaps. */
  predicate ContiguousFrameIds(run: seq<FrameResult>) {
    forall k | 0 <= k < |run| :: run[k].frameId == k + 1
  }

  /** Appending the `k`-th record to the first `k` records gives the first `k + 1`. */
  lemma RecordsStep(table: NameTable, b: TrackedBoxes, objects: seq<DetectionRecord>, k: nat)
    requires b.ids.Some? && k < ZipLength(b)
    requires |objects| == k
    requires forall j | 0 <= j < k :: objects[j] == RecordAt(table, b, j)
    ensures forall j | 0 <= j < k + 1 :: (objects + [RecordAt(table, b, k)])[j] == RecordAt(table, b, j)
  {
  }

  /** The inner loop of `track_video`: walks the zipped arrays and appends one record per tuple. */
  method CollectFrameObjects(table: NameTable, f: TrackerFrame) returns (objects: seq<DetectionRecord>)
    ensures !HasTracks(f) ==> objects == []
    ensures HasTracks(f) ==>
      && |objects| == ZipLength(f.boxes.value)
      && forall k | 0 <= k < |objects| :: objects[k] == RecordAt(table, f.boxes.value, k)
  {
    objects := [];
    if HasTracks(f) {
      var b := f.boxes.value;
      var boxes, trackIds, confidences, classes := b.xyxy, b.ids.value, b.conf, b.cls;
      var n := ZipLength(b);
      for k := 0 to n
        invariant |objects| == k
        invariant forall j | 0 <= j < k :: objects[j] == RecordAt(table, b, j)
      {
        var box := TruncBox(boxes[k]);
        var rawName := GetClassName(table, Trunc(classes[k]));
        var (normalized, _) := MapBinary(rawName);
        var record := DetectionRecord(Trunc(trackIds[k]), normalized, confidences[k], box);
        assert record == RecordAt(table, b, k);
        RecordsStep(table, b, objects, k);
        objects := objects + [record];
      }
    }
  }

  /** What `cv2.VideoCapture(input_path)` reports: whether it opened, its frame rate, and its
      frame width and height as floats. */
  datatype VideoInfo = VideoInfo(isOpened: bool, fps: RawFps, width: real, height: real)

  /** The message `track_video` returns beside its success flag. */
  datatype Report =
    | CouldNotOpen(inputPath: string)
    | WriterFailed
    | Saved(frames: nat, codec: string, outPath: string)
    | ProcessingFailed

  /** The text of each report; for a caught exception only the fixed prefix is modelled. */
  function ReportText(r: Report): string {
    match r
    case CouldNotOpen(p) => "Could not open video file: " + p
    case WriterFailed => "Failed to initialize VideoWriter with mp4v/XVID/avc1"
    case Saved(n, codec, path) => "Saved " + IntToString(n) + " frames using " + codec + " at " + path
    case ProcessingFailed => "An error occurred during processing: "
  }

  /** An input that cannot be opened is named in the message. */
  lemma CouldNotOpenNamesPath(p: string)
    ensures Contains(ReportText(CouldNotOpen(p)), p)
  {
    var text := ReportText(CouldNotOpen(p));
    var n := |"Could not open video file: "|;
    assert text[n..n + |p|] == p;
    assert OccursAt(text, p, n);
    ContainsIffOccurs(text, p);
  }

  /** The writer `track_video` ends up with for a capture: the guarded rate and the frame size
      truncated to integers, on the requested output path. */
  function WriterFor(outputPath: string, video: VideoInfo, opens: WriterRequest -> bool): WriterOutcome {
    SelectWriter(outputPath, SafeFps(video.fps), Trunc(video.width), Trunc(video.height), opens, 0)
  }

  /** `track_video`. Returns the success flag, the report, and the JSON results written to
      `json_path` (None when nothing is written). The detector's frames are `frames`. */
  method TrackVideo(inputPath: string, outputPath: string, video: VideoInfo, table: NameTable,
                    opens: WriterRequest -> bool, frames: seq<TrackerFrame>)
    returns (ok: bool, report: Report, results: Option<seq<FrameResult>>)
    ensures ok <==> results.Some?
    ensures !video.isOpened ==> !ok && report == CouldNotOpen(inputPath)
    ensures video.isOpened && WriterFor(outputPath, video, opens).BadBasePath? ==>
      !ok && report == ProcessingFailed
    ensures video.isOpened && WriterFor(outputPath, video, opens).NoneOpened? ==>
      !ok && report == WriterFailed
    ensures video.isOpened && WriterFor(outputPath, video, opens).Opened? ==>
      && ok
      && report == Saved(|frames|, WriterFor(outputPath, video, opens).fourcc,
                         WriterFor(outputPath, video, opens).path)
      && results.value == TrackingRun(table, frames)
    ensures ok ==> |results.value| == |frames| && ContiguousFrameIds(results.value)
  {
    if !video.isOpened {
      return false, CouldNotOpen(inputPath), None;
    }
    var fps := SafeFps(video.fps);
    var width, height := Trunc(video.width), Trunc(video.height);
    var writer := OpenWriter(outputPath, fps, width, height, opens);
    if writer.BadBasePath? {
      return false, ProcessingFailed, None;
    }
    if writer.NoneOpened? {
      return false, WriterFailed, None;
    }

    var resultsData, frameId := AggregateFrames(table, frames);
    return true, Saved(frameId, writer.fourcc, writer.path), Some(resultsData);
  }

  /** The frame loop of `track_video`: numbers the frames from 1 and appends one result per
      frame, an empty object list included. */
  method AggregateFrames(table: NameTable, frames: seq<TrackerFrame>)
    returns (resultsData: seq<FrameResult>, frameId: nat)
    ensures frameId == |frames|
    ensures resultsData == TrackingRun(table, frames)
  {
    resultsData, frameId := [], 0;
    for i := 0 to |frames|
      invariant frameId == i == |resultsData|
      invariant forall k | 0 <= k < i :: resultsData[k] == FrameResult(k + 1, FrameObjects(table, frames[k]))
    {
      frameId := frameId + 1;
      var frameObjects := CollectFrameObjects(table, frames[i]);
      assert frameObjects == FrameObjects(table, frames[i]);
      resultsData := resultsData + [FrameResult(frameId, frameObjects)];
    }
  }

  /** Every frame's objects are exactly the zipped tuples in order, so a frame contributes as
      many records as its shortest array; each record's category is the normalisation of
      its resolved class name, and its id, confidence and truncated box come from the same tuple. */
  lemma FrameObjectsFaithful(table: NameTable, f: TrackerFrame)
    ensures !HasTracks(f) ==> FrameObjects(table, f) == []
    ensures HasTracks(f) ==> |FrameObjects(table, f)| == ZipLength(f.boxes.value)
    ensures HasTracks(f) ==> forall k | 0 <= k < ZipLength(f.boxes.value) ::
      FrameObjects(table, f)[k].category ==
        MapBinary(GetClassName(table, Trunc(f.boxes.value.cls[k]))).0
    ensures HasTracks(f) ==> forall k | 0 <= k < ZipLength(f.boxes.value) ::
      var b, o := f.boxes.value, FrameObjects(table, f)[k];
      && o.trackId == Trunc(b.ids.value[k])
      && o.confidence == b.conf[k]
      && o.bbox == PixelBox(Trunc(b.xyxy[k].x1), Trunc(b.xyxy[k].y1), Trunc(b.xyxy[k].x2), Trunc(b.xyxy[k].y2))
  {
  }
}
