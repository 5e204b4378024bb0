/** The label writer of inference/run_inference_label.py: `save_yolo_labels` turns each
    detection result into a YOLO label file named after the image, keeping only the boxes of
    classes 0 and 1, in detector order.

    The detector's results are an input sequence; the label directory is a map from file path to
    the lines written there, passed in and returned. */
module RunInferenceLabel {
  import opened PyNum
  import opened PyText
  import PyPath

  /** `accepted_classes`: the vehicle and pedestrian class ids. */
  const AcceptedClasses: set<int> := {0, 1}

  /** One row of `boxes.xywhn`: centre and size, normalised to the image. */
  datatype NormBox = NormBox(x: real, y: real, w: real, h: real)

  /** The parallel arrays a result carries: normalised boxes and (float) class ids. */
  datatype Detections = Detections(xywhn: seq<NormBox>, cls: seq<real>)

  /** One detection result: the image it was computed for and its boxes. */
  datatype InferenceResult = InferenceResult(path: string, boxes: Detections)

  /** One line of a YOLO label file: the class id, then the normalised box. */
  datatype LabelLine = LabelLine(cls: int, box: NormBox)

  // ---------------------------------------------------------------- the lines of one file

  /** How many (box, class) pairs `zip` yields. */
  function PairCount(d: Detections): (n: nat)
    ensures n <= |d.xywhn| && n <= |d.cls|
    ensures n == |d.xywhn| || n == |d.cls|
  {
    Min(|d.xywhn|, |d.cls|)
  }

  /** The line pair `k` would produce: the class truncated by `astype(int)`, and the box. */
  function Candidate(d: Detections, k: nat): LabelLine
    requires k < PairCount(d)
  {
    LabelLine(Trunc(d.cls[k]), d.xywhn[k])
  }

  /** The lines written for the first `n` pairs: the accepted ones, in pair order. */
  function KeptLines(d: Detections, n: nat): (lines: seq<LabelLine>)
    requires n <= PairCount(d)
    ensures |lines| <= n
    ensures forall i | 0 <= i < |lines| :: lines[i].cls in AcceptedClasses
    decreases n
  {
    if n == 0 then []
    else
      var c := Candidate(d, n - 1);
      KeptLines(d, n - 1) + (if c.cls in AcceptedClasses then [c] else [])
  }

  /** The lines of a result's label file. */
  function LabelLines(d: Detections): seq<LabelLine> {
    KeptLines(d, PairCount(d))
  }

  /** `os.path.splitext(os.path.basename(img_path))[0] + '.txt'`. */
  function LabelFileName(imgPath: string): string {
    PyPath.SplitExt(PyPath.Basename(imgPath)).0 + ".txt"
  }

  /** `os.path.join(save_dir, txt_file_name)`. */
  function LabelPath(saveDir: string, imgPath: string): string {
    PyPath.PathJoin(saveDir, LabelFileName(imgPath))
  }

  /** The label directory after the results have been written, one after the other: each
      result's file is (re)created with that result's lines. */
  function SavedFiles(saveDir: string, results: seq<InferenceResult>,
                      files: map<string, seq<LabelLine>>): map<string, seq<LabelLine>>
    decreases |results|
  {
    if results == [] then files
    else
      var last := results[|results| - 1];
      SavedFiles(saveDir, results[..|results| - 1], files)[LabelPath(saveDir, last.path) := LabelLines(last.boxes)]
  }

  /** The paths reported as saved, one per result. */
  function SavedPaths(saveDir: string, results: seq<InferenceResult>): (paths: seq<string>)
    ensures |paths| == |results|
    decreases |results|
  {
    if results == [] then []
    else SavedPaths(saveDir, results[..|results| - 1]) + [LabelPath(saveDir, results[|results| - 1].path)]
  }

  /** The last reported path is the last result's label path. */
  lemma SavedPathsLast(saveDir: string, results: seq<InferenceResult>)
    requires results != []
    ensures SavedPaths(saveDir, results) ==
      SavedPaths(saveDir, results[..|results| - 1]) + [LabelPath(saveDir, results[|results| - 1].path)]
  {
  }

  /** The path reported for each result is the label path built for it. */
  lemma {:induction false} SavedPathsAt(saveDir: string, results: seq<InferenceResult>, k: nat)
    requires k < |results|
    ensures SavedPaths(saveDir, results)[k] == LabelPath(saveDir, results[k].path)
    decreases |results|
  {
    var front := results[..|results| - 1];
    SavedPathsLast(saveDir, results);
    if k < |front| {
      assert front[k] == results[k];
      SavedPathsAt(saveDir, front, k);
    }
  }

  /** `f"{cls_id} " + " ".join(f"{x:.6f}" for x in bbox_norm) + "\n"`, with the fixed-point
      formatting of one number given as `fmt`. */
  function LineText(line: LabelLine, fmt: real -> string): string {
    IntToString(line.cls) + " " + Join([fmt(line.box.x), fmt(line.box.y), fmt(line.box.w), fmt(line.box.h)]) + "\n"
  }

  // ---------------------------------------------------------------- save_yolo_labels

  lemma SaveStep(saveDir: string, results: seq<InferenceResult>, files: map<string, seq<LabelLine>>, i: nat)
    requires i < |results|
    ensures SavedFiles(saveDir, results[..i + 1], files) ==
      SavedFiles(saveDir, results[..i], files)[LabelPath(saveDir, results[i].path) := LabelLines(results[i].boxes)]
    ensures SavedPaths(saveDir, results[..i + 1]) ==
      SavedPaths(saveDir, results[..i]) + [LabelPath(saveDir, results[i].path)]
  {
    assert results[..i + 1][..i] == results[..i];
  }

  /** `save_yolo_labels`: for each result, in order, writes its label file (truncating any
      earlier one) with one line per accepted (box, class) pair, and reports the file's path. */
  method SaveYoloLabels(results: seq<InferenceResult>, saveDir: string, files: map<string, seq<LabelLine>>)
    returns (written: map<string, seq<LabelLine>>, saved: seq<string>)
    ensures written == SavedFiles(saveDir, results, files)
    ensures saved == SavedPaths(saveDir, results)
  {
    written, saved := files, [];
    for i := 0 to |results|
      invariant written == SavedFiles(saveDir, results[..i], files)
      invariant saved == SavedPaths(saveDir, results[..i])
    {
      SaveStep(saveDir, results, files, i);
      var result := results[i];
      var imgName := PyPath.Basename(result.path);
      var txtFileName := PyPath.SplitExt(imgName).0 + ".txt";
      var txtPath := PyPath.PathJoin(saveDir, txtFileName);

      var boxes := result.boxes;
      var lines: seq<LabelLine> := [];
      for k := 0 to Min(|boxes.xywhn|, |boxes.cls|)
        invariant lines == KeptLines(boxes, k)
      {
        var clsId := Trunc(boxes.cls[k]);
        if clsId !in AcceptedClasses {
          continue;
        }
        lines := lines + [LabelLine(clsId, boxes.xywhn[k])];
      }
      assert txtPath == LabelPath(saveDir, result.path) && lines == LabelLines(boxes);
      written := written[txtPath := lines];
      saved := saved + [txtPath];
    }
    assert results[..|results|] == results;
  }

  // ---------------------------------------------------------------- what the writer promises

  /** A line is written exactly when some pair yields it and its class is accepted. */
  lemma {:induction false} KeptLinesMembers(d: Detections, n: nat)
    requires n <= PairCount(d)
    ensures forall line :: line in KeptLines(d, n) <==>
      line.cls in AcceptedClasses && exists k | 0 <= k < n :: Candidate(d, k) == line
    decreases n
  {
    if n > 0 {
      KeptLinesMembers(d, n - 1);
    }
  }

  /** When every class of the first `n` pairs is accepted, every pair is written, in order. */
  lemma {:induction false} KeptLinesAllAccepted(d: Detections, n: nat)
    requires n <= PairCount(d)
    requires forall k | 0 <= k < n :: Trunc(d.cls[k]) in AcceptedClasses
    ensures KeptLines(d, n) == seq(n, k requires 0 <= k < n => Candidate(d, k))
    decreases n
  {
    if n > 0 {
      KeptLinesAllAccepted(d, n - 1);
    }
  }

  /** Pairs that agree give the same lines. */
  lemma {:induction false} KeptLinesAgree(d: Detections, e: Detections, n: nat)
    requires n <= PairCount(d) && n <= PairCount(e)
    requires forall k | 0 <= k < n :: d.cls[k] == e.cls[k] && d.xywhn[k] == e.xywhn[k]
    ensures KeptLines(d, n) == KeptLines(e, n)
    decreases n
  {
    if n > 0 {
      KeptLinesAgree(d, e, n - 1);
    }
  }

  /** The lines keep the detector's order: the lines of two runs of detections placed one after
      the other are the lines of the first followed by those of the second. */
  lemma {:induction false} KeptLinesAppend(d1: Detections, d2: Detections, m: nat)
    requires |d1.xywhn| == |d1.cls|
    requires m <= PairCount(d2)
    ensures var c := Detections(d1.xywhn + d2.xywhn, d1.cls + d2.cls);
      |d1.cls| + m <= PairCount(c) &&
      KeptLines(c, |d1.cls| + m) == KeptLines(d1, |d1.cls|) + KeptLines(d2, m)
    decreases m
  {
    var c := Detections(d1.xywhn + d2.xywhn, d1.cls + d2.cls);
    var n1 := |d1.cls|;
    if m == 0 {
      KeptLinesAgree(c, d1, n1);
    } else {
      KeptLinesAppend(d1, d2, m - 1);
      assert c.cls[n1 + m - 1] == d2.cls[m - 1];
      assert c.xywhn[n1 + m - 1] == d2.xywhn[m - 1];
    }
  }

  /** One detection list placed after another keeps both files' lines, in order. */
  lemma LabelLinesAppend(d1: Detections, d2: Detections)
    requires |d1.xywhn| == |d1.cls| && |d2.xywhn| == |d2.cls|
    ensures LabelLines(Detections(d1.xywhn + d2.xywhn, d1.cls + d2.cls)) == LabelLines(d1) + LabelLines(d2)
  {
    KeptLinesAppend(d1, d2, PairCount(d2));
  }

  /** The label file is named after the image: its basename is the image's basename with the
      extension (if any) replaced by ".txt". */
  lemma LabelPathNaming(saveDir: string, imgPath: string)
    ensures var stem := PyPath.SplitExt(PyPath.Basename(imgPath)).0;
      && PyPath.Basename(LabelPath(saveDir, imgPath)) == stem + ".txt"
      && stem + PyPath.SplitExt(PyPath.Basename(imgPath)).1 == PyPath.Basename(imgPath)
  {
    var b := PyPath.Basename(imgPath);
    var stem := PyPath.SplitExt(b).0;
    assert stem == b[..|stem|];
    PyPath.PrefixKeepsNoSlash(b, |stem|);
    var name := stem + ".txt";
    forall k | 0 <= k < |name| ensures name[k] != '/' {
      if k < |stem| { assert name[k] == stem[k]; }
    }
    PyPath.PathJoinBasename(saveDir, name);
  }

  /** The files of the label directory after saving: those of the results' label paths, and
      those that were there before. */
  lemma {:induction false} SavedFilesDomain(saveDir: string, results: seq<InferenceResult>,
                                            files: map<string, seq<LabelLine>>)
    ensures forall p :: p in SavedFiles(saveDir, results, files) <==>
      p in files || p in SavedPaths(saveDir, results)
    decreases |results|
  {
    if results != [] {
      var front := results[..|results| - 1];
      SavedFilesDomain(saveDir, front, files);
      assert SavedPaths(saveDir, results) ==
        SavedPaths(saveDir, front) + [LabelPath(saveDir, results[|results| - 1].path)];
    }
  }

  /** A result's label file holds that result's accepted lines, unless a later result was
      written to the same path (the later one then wins). */
  lemma {:induction false} SavedFilesContents(saveDir: string, results: seq<InferenceResult>,
                                              files: map<string, seq<LabelLine>>, k: nat)
    requires k < |results|
    requires forall l | k < l < |results| ::
      LabelPath(saveDir, results[l].path) != LabelPath(saveDir, results[k].path)
    ensures LabelPath(saveDir, results[k].path) in SavedFiles(saveDir, results, files)
    ensures SavedFiles(saveDir, results, files)[LabelPath(saveDir, results[k].path)] ==
      LabelLines(results[k].boxes)
    decreases |results|
  {
    if k < |results| - 1 {
      var front := results[..|results| - 1];
      assert front[k] == results[k];
      SavedFilesContents(saveDir, front, files, k);
    }
  }

  /** A file that no result writes to keeps its contents. */
  lemma {:induction false} SavedFilesUntouched(saveDir: string, results: seq<InferenceResult>,
                                               files: map<string, seq<LabelLine>>, p: string)
    requires p in files
    requires forall l | 0 <= l < |results| :: LabelPath(saveDir, results[l].path) != p
    ensures p in SavedFiles(saveDir, results, files) && SavedFiles(saveDir, results, files)[p] == files[p]
    decreases |results|
  {
    if results != [] {
      var front := results[..|results| - 1];
      SavedFilesUntouched(saveDir, front, files, p);
    }
  }
}
