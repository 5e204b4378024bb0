/** The two halves of the labelling pipeline meet here: a label file written by
    `save_yolo_labels` is read back by `convert`. Each written line survives the trip with its
    class mapped to the COCO category (detector class 0 to category 1 "vehicle", class 1 to
    category 2 "pedestrian") and its box converted to pixels, up to the rounding of the
    six-decimal formatting. */
module LabelRoundTrip {
  import opened Wrappers
  import opened PyText
  import ConvertToCoco
  import RunInferenceLabel

  /** The text of a written label file, one line per entry. */
  function FileText(lines: seq<RunInferenceLabel.LabelLine>, fmt: real -> string): (texts: seq<string>)
    ensures |texts| == |lines|
    decreases |lines|
  {
    if lines == [] then []
    else FileText(lines[..|lines| - 1], fmt) + [RunInferenceLabel.LineText(lines[|lines| - 1], fmt)]
  }

  /** The box `convert` reads back from a written line: each value rounded by the formatting,
      then converted to pixels. */
  function ReadBox(line: RunInferenceLabel.LabelLine, size: ConvertToCoco.ImageSize,
                   round: real -> real): ConvertToCoco.CocoBox
  {
    ConvertToCoco.YoloToCocoBox(
      ConvertToCoco.YoloBox(round(line.box.x), round(line.box.y), round(line.box.w), round(line.box.h)),
      size.width, size.height)
  }

  /** What `convert` should make of written lines: one annotation each, in order, with category
      the detector class plus one and the read-back box. */
  function ExpectedBodies(lines: seq<RunInferenceLabel.LabelLine>, imageId: nat, size: ConvertToCoco.ImageSize,
                          round: real -> real): (bodies: seq<ConvertToCoco.AnnotationBody>)
    requires forall k | 0 <= k < |lines| :: lines[k].cls in RunInferenceLabel.AcceptedClasses
    ensures |bodies| == |lines|
    decreases |lines|
  {
    if lines == [] then []
    else
      var last := lines[|lines| - 1];
      ExpectedBodies(lines[..|lines| - 1], imageId, size, round)
        + [ConvertToCoco.AnnotationBody(imageId, last.cls + 1, ReadBox(last, size, round))]
  }

  /** The formatting of one number yields a single token, and `float()` reads it back as the
      number rounded by `round`. */
  ghost predicate FormatReadsBack(fmt: real -> string, round: real -> real, parseFloat: string -> Option<real>) {
    forall x: real :: IsToken(fmt(x)) && parseFloat(fmt(x)) == Some(round(x))
  }

  lemma ClassTokens(cls: int)
    requires cls in RunInferenceLabel.AcceptedClasses
    ensures IsToken(IntToString(cls))
    ensures IntToString(cls) in ConvertToCoco.ClassMap && ConvertToCoco.ClassMap[IntToString(cls)] == cls + 1
  {
    if cls == 0 {
      assert IntToString(0) == "0";
    } else {
      assert IntToString(1) == "1";
    }
  }

  /** A written line is kept by `convert` with the class's category and the read-back box. */
  lemma LineReadBack(line: RunInferenceLabel.LabelLine, fmt: real -> string, round: real -> real,
                     parseFloat: string -> Option<real>, size: ConvertToCoco.ImageSize)
    requires line.cls in RunInferenceLabel.AcceptedClasses
    requires FormatReadsBack(fmt, round, parseFloat)
    ensures ConvertToCoco.ParseLabelLine(RunInferenceLabel.LineText(line, fmt), size, parseFloat) ==
      ConvertToCoco.Kept(line.cls + 1, ReadBox(line, size, round))
  {
    var b := line.box;
    var numbers := [fmt(b.x), fmt(b.y), fmt(b.w), fmt(b.h)];
    var parts := [IntToString(line.cls)] + numbers;
    ClassTokens(line.cls);
    forall k | 0 <= k < |parts| ensures IsToken(parts[k]) {
      if k > 0 { assert parts[k] == numbers[k - 1]; }
    }
    assert parts[1..] == numbers;
    assert Join(parts) == IntToString(line.cls) + " " + Join(numbers);
    assert RunInferenceLabel.LineText(line, fmt) == Join(parts) + "\n";
    StripJoinNewline(parts);
    SplitJoin(parts);
    ConvertToCoco.ParseLabelLineCases(RunInferenceLabel.LineText(line, fmt), size, parseFloat);
  }

  /** A written line appended to lines `convert` has read extends their annotations by its
      own. */
  lemma WrittenLineExtends(texts: seq<string>, line: RunInferenceLabel.LabelLine, fmt: real -> string,
                           round: real -> real, parseFloat: string -> Option<real>,
                           imageId: nat, size: ConvertToCoco.ImageSize, before: seq<ConvertToCoco.AnnotationBody>)
    requires texts != [] && texts[|texts| - 1] == RunInferenceLabel.LineText(line, fmt)
    requires line.cls in RunInferenceLabel.AcceptedClasses
    requires FormatReadsBack(fmt, round, parseFloat)
    requires ConvertToCoco.LineBodies(texts[..|texts| - 1], imageId, size, parseFloat) == Success(before)
    ensures ConvertToCoco.LineBodies(texts, imageId, size, parseFloat) ==
      Success(before + [ConvertToCoco.AnnotationBody(imageId, line.cls + 1, ReadBox(line, size, round))])
  {
    LineReadBack(line, fmt, round, parseFloat, size);
  }

  /** A whole written file is read back line by line, every line kept, in order. */
  lemma {:induction false} FileReadBack(lines: seq<RunInferenceLabel.LabelLine>, fmt: real -> string,
                                        round: real -> real, parseFloat: string -> Option<real>,
                                        imageId: nat, size: ConvertToCoco.ImageSize)
    requires forall k | 0 <= k < |lines| :: lines[k].cls in RunInferenceLabel.AcceptedClasses
    requires FormatReadsBack(fmt, round, parseFloat)
    ensures ConvertToCoco.LineBodies(FileText(lines, fmt), imageId, size, parseFloat) ==
      Success(ExpectedBodies(lines, imageId, size, round))
    decreases |lines|
  {
    if lines != [] {
      var n := |lines|;
      var front := lines[..n - 1];
      var texts := FileText(lines, fmt);
      var before := ExpectedBodies(front, imageId, size, round);
      assert ConvertToCoco.LineBodies(texts[..n - 1], imageId, size, parseFloat) == Success(before) by {
        assert texts[..n - 1] == FileText(front, fmt);
        FileReadBack(front, fmt, round, parseFloat, imageId, size);
      }
      WrittenLineExtends(texts, lines[n - 1], fmt, round, parseFloat, imageId, size, before);
    }
  }

  /** The label file `save_yolo_labels` writes for a result is read by `convert` into one
      annotation per kept detection, in detector order. */
  lemma SavedFileReadBack(d: RunInferenceLabel.Detections, fmt: real -> string, round: real -> real,
                          parseFloat: string -> Option<real>, imageId: nat, size: ConvertToCoco.ImageSize)
    requires FormatReadsBack(fmt, round, parseFloat)
    ensures ConvertToCoco.LineBodies(FileText(RunInferenceLabel.LabelLines(d), fmt), imageId, size, parseFloat) ==
      Success(ExpectedBodies(RunInferenceLabel.LabelLines(d), imageId, size, round))
  {
    FileReadBack(RunInferenceLabel.LabelLines(d), fmt, round, parseFloat, imageId, size);
  }
}
