/** The YOLO-to-COCO label conversion of labeller_sdk/convert_to_coco.py: the class map, the
    fixed category list, the centre-to-corner box arithmetic, and the `convert` loop that numbers
    images and annotations while reading one label file per `.jpg` image.

    The image directory is a listing of file names, the label directory a map from file name
    to the file's lines, PIL's size read a function of the file name, and Python's `float()`
    a function that may fail. The JSON document is the returned value. */
module ConvertToCoco {
  import opened Wrappers
  import opened PyText
  import PyPath

  // ---------------------------------------------------------------- constants

  /** CLASS_MAP: YOLO class token to COCO category id. */
  const ClassMap: map<string, nat> := map["0" := 1, "1" := 2]

  datatype CocoCategory = CocoCategory(id: nat, name: string)

  /** CATEGORIES: the fixed category list of every output. */
  const Categories: seq<CocoCategory> := [CocoCategory(1, "vehicle"), CocoCategory(2, "pedestrian")]

  /** Only the tokens '0' and '1' are classes, and they map to 1 and 2. */
  lemma ClassMapDomain(token: string)
    ensures token in ClassMap <==> token == "0" || token == "1"
    ensures token == "0" ==> ClassMap[token] == 1
    ensures token == "1" ==> ClassMap[token] == 2
  {
  }

  /** Every category id CLASS_MAP produces is listed in CATEGORIES and every listed category
      is produced by some class; id 1 is named "vehicle" and the other id "pedestrian". */
  lemma CategoriesMatchClassMap()
    ensures forall t | t in ClassMap :: exists k | 0 <= k < |Categories| :: Categories[k].id == ClassMap[t]
    ensures forall k | 0 <= k < |Categories| :: Categories[k].id in ClassMap.Values
    ensures forall k | 0 <= k < |Categories| ::
      Categories[k].name == (if Categories[k].id == 1 then "vehicle" else "pedestrian")
  {
    forall t | t in ClassMap
      ensures exists k | 0 <= k < |Categories| :: Categories[k].id == ClassMap[t]
    {
      ClassMapDomain(t);
      if t == "0" {
        assert Categories[0].id == ClassMap[t];
      } else {
        assert Categories[1].id == ClassMap[t];
      }
    }
    forall k | 0 <= k < |Categories|
      ensures Categories[k].id in ClassMap.Values
    {
      var t := if k == 0 then "0" else "1";
      assert t in ClassMap && ClassMap[t] == Categories[k].id;
    }
    forall k | 0 <= k < |Categories|
      ensures Categories[k].name == (if Categories[k].id == 1 then "vehicle" else "pedestrian")
    {
      assert Categories[k] == if k == 0 then CocoCategory(1, "vehicle") else CocoCategory(2, "pedestrian");
    }
  }

  // ---------------------------------------------------------------- yolo_to_coco_bbox

  /** A COCO box: top-left corner, then width and height, in pixels. */
  datatype CocoBox = CocoBox(xMin: real, yMin: real, w: real, h: real)

  /** A YOLO box: centre, then width and height, as fractions of the image size. */
  datatype YoloBox = YoloBox(xCenter: real, yCenter: real, width: real, height: real)

  /** `yolo_to_coco_bbox`: scales the normalised box to pixels and moves from the centre to the
      top-left corner. */
  function YoloToCocoBox(b: YoloBox, imgWidth: int, imgHeight: int): (box: CocoBox)
    ensures box.w == b.width * imgWidth as real && box.h == b.height * imgHeight as real
    ensures box.xMin + box.w / 2.0 == b.xCenter * imgWidth as real
    ensures box.yMin + box.h / 2.0 == b.yCenter * imgHeight as real
  {
    CocoBox((b.xCenter - b.width / 2.0) * imgWidth as real,
            (b.yCenter - b.height / 2.0) * imgHeight as real,
            b.width * imgWidth as real,
            b.height * imgHeight as real)
  }

  /** The inverse conversion, from a pixel box in corner form back to a normalised centre box. */
  function CocoToYoloBox(box: CocoBox, imgWidth: int, imgHeight: int): YoloBox
    requires imgWidth > 0 && imgHeight > 0
  {
    YoloBox((box.xMin + box.w / 2.0) / imgWidth as real,
            (box.yMin + box.h / 2.0) / imgHeight as real,
            box.w / imgWidth as real,
            box.h / imgHeight as real)
  }

  /** For an image of positive size no information is lost: converting back gives the YOLO box
      that went in, and converting a COCO box there and back gives that box. */
  lemma YoloCocoRoundTrip(b: YoloBox, box: CocoBox, imgWidth: int, imgHeight: int)
    requires imgWidth > 0 && imgHeight > 0
    ensures CocoToYoloBox(YoloToCocoBox(b, imgWidth, imgHeight), imgWidth, imgHeight) == b
    ensures YoloToCocoBox(CocoToYoloBox(box, imgWidth, imgHeight), imgWidth, imgHeight) == box
  {
    var iw, ih := imgWidth as real, imgHeight as real;
    var c := YoloToCocoBox(b, imgWidth, imgHeight);
    assert c.xMin + c.w / 2.0 == b.xCenter * iw;
    assert (b.xCenter * iw) / iw == b.xCenter;
    assert (b.yCenter * ih) / ih == b.yCenter;
    assert (b.width * iw) / iw == b.width;
    assert (b.height * ih) / ih == b.height;
    var y := CocoToYoloBox(box, imgWidth, imgHeight);
    assert y.width * iw == box.w;
    assert y.height * ih == box.h;
    assert y.xCenter * iw == box.xMin + box.w / 2.0;
    assert y.yCenter * ih == box.yMin + box.h / 2.0;
  }

  /** The area recorded before rounding, `w * h`, is never negative for a box of non-negative
      size in an image of non-negative size. */
  lemma AreaNonNegative(b: YoloBox, imgWidth: int, imgHeight: int)
    requires b.width >= 0.0 && b.height >= 0.0 && imgWidth >= 0 && imgHeight >= 0
    ensures YoloToCocoBox(b, imgWidth, imgHeight).w * YoloToCocoBox(b, imgWidth, imgHeight).h >= 0.0
  {
    var box := YoloToCocoBox(b, imgWidth, imgHeight);
    assert box.w >= 0.0 && box.h >= 0.0;
  }

  // ---------------------------------------------------------------- one label line

  /** `float(token)` raised ValueError: the conversion stops with no output. */
  datatype ConvertError = InvalidFloat(token: string)

  /** What `convert` does with one line of a label file. */
  datatype LineOutcome = Skipped | Kept(categoryId: nat, box: CocoBox) | Rejected(error: ConvertError)

  /** The size PIL reports for an image. */
  datatype ImageSize = ImageSize(width: int, height: int)

  /** One line: `line.strip().split()` must give exactly five tokens and the first must be a
      class of CLASS_MAP, or the line is skipped; the other four are parsed with `float()` in
      order, and the first that fails stops the conversion. */
  function ParseLabelLine(line: string, size: ImageSize, parseFloat: string -> Option<real>): (outcome: LineOutcome)
    ensures outcome.Kept? ==> outcome.categoryId == 1 || outcome.categoryId == 2
  {
    var parts := Split(Strip(line));
    if |parts| != 5 then Skipped
    else
      var cls := parts[0];
      if cls !in ClassMap then Skipped
      else
        var xc, yc, w, h := parseFloat(parts[1]), parseFloat(parts[2]), parseFloat(parts[3]), parseFloat(parts[4]);
        if xc.None? then Rejected(InvalidFloat(parts[1]))
        else if yc.None? then Rejected(InvalidFloat(parts[2]))
        else if w.None? then Rejected(InvalidFloat(parts[3]))
        else if h.None? then Rejected(InvalidFloat(parts[4]))
        else Kept(ClassMap[cls], YoloToCocoBox(YoloBox(xc.value, yc.value, w.value, h.value), size.width, size.height))
  }

  /** The cases of one line: it is skipped exactly when it does not have five tokens or its
      first token is not a class; otherwise it is rejected exactly when one of the four numbers
      does not parse, naming the first token that fails, and kept with the class's category and the converted
      box when all four parse. */
  lemma ParseLabelLineCases(line: string, size: ImageSize, parseFloat: string -> Option<real>)
    ensures ParseLabelLine(line, size, parseFloat).Skipped? <==>
      |Split(Strip(line))| != 5 || Split(Strip(line))[0] !in ClassMap
    ensures ParseLabelLine(line, size, parseFloat).Rejected? ==>
      exists k | 1 <= k < 5 :: parseFloat(Split(Strip(line))[k]).None?
        && (forall j | 1 <= j < k :: parseFloat(Split(Strip(line))[j]).Some?)
        && ParseLabelLine(line, size, parseFloat).error == InvalidFloat(Split(Strip(line))[k])
    ensures ParseLabelLine(line, size, parseFloat).Kept? <==>
      && |Split(Strip(line))| == 5 && Split(Strip(line))[0] in ClassMap
      && (forall k | 1 <= k < 5 :: parseFloat(Split(Strip(line))[k]).Some?)
    ensures ParseLabelLine(line, size, parseFloat).Kept? ==>
      var parts := Split(Strip(line));
      && ParseLabelLine(line, size, parseFloat).categoryId == ClassMap[parts[0]]
      && ParseLabelLine(line, size, parseFloat).box == YoloToCocoBox(
           YoloBox(parseFloat(parts[1]).value, parseFloat(parts[2]).value,
                   parseFloat(parts[3]).value, parseFloat(parts[4]).value),
           size.width, size.height)
  {
    var parts := Split(Strip(line));
    if ParseLabelLine(line, size, parseFloat).Rejected? {
      var k := if parseFloat(parts[1]).None? then 1
        else if parseFloat(parts[2]).None? then 2
        else if parseFloat(parts[3]).None? then 3
        else 4;
      assert parseFloat(parts[k]).None? && ParseLabelLine(line, size, parseFloat).error == InvalidFloat(parts[k]);
      assert forall j | 1 <= j < k :: parseFloat(parts[j]).Some?;
    }
  }

  // ---------------------------------------------------------------- the specification of convert

  /** The inputs `convert` reads: the image directory's listing (in `os.listdir` order), PIL's
      size for each image, and the label directory as a map from file name to lines. */
  datatype Dataset = Dataset(listing: seq<string>, imageSize: string -> ImageSize,
                             labelFiles: map<string, seq<string>>)

  /** `filename.endswith('.jpg')`. */
  predicate IsImageFile(name: string) {
    EndsWith(name, ".jpg")
  }

  /** The listing's `.jpg` files, in listing order. */
  function ImageFiles(listing: seq<string>): (images: seq<string>)
    ensures |images| <= |listing|
    decreases |listing|
  {
    if listing == [] then []
    else
      var front := ImageFiles(listing[..|listing| - 1]);
      if IsImageFile(listing[|listing| - 1]) then front + [listing[|listing| - 1]] else front
  }

  /** `os.path.splitext(filename)[0] + '.txt'`: the label file that belongs to an image. */
  function LabelFileName(imageName: string): string {
    PyPath.SplitExt(imageName).0 + ".txt"
  }

  /** An annotation before its id is assigned. */
  datatype AnnotationBody = AnnotationBody(imageId: nat, categoryId: nat, bbox: CocoBox)

  /** The effect of one line on the annotations read so far for image `imageId`. */
  function AddLine(front: seq<AnnotationBody>, imageId: nat, outcome: LineOutcome): Result<seq<AnnotationBody>, ConvertError> {
    match outcome
    case Skipped => Success(front)
    case Rejected(e) => Failure(e)
    case Kept(category, box) => Success(front + [AnnotationBody(imageId, category, box)])
  }

  /** The annotations one label file yields for image `imageId`, in line order, or the error of
      the first line whose numbers do not parse. */
  function LineBodies(lines: seq<string>, imageId: nat, size: ImageSize,
                      parseFloat: string -> Option<real>): Result<seq<AnnotationBody>, ConvertError>
    decreases |lines|
  {
    if lines == [] then Success([])
    else
      match LineBodies(lines[..|lines| - 1], imageId, size, parseFloat)
      case Failure(e) => Failure(e)
      case Success(front) => AddLine(front, imageId, ParseLabelLine(lines[|lines| - 1], size, parseFloat))
  }

  /** The lines read for an image: its label file's, or none when the file does not exist. */
  function ImageLines(ds: Dataset, imageName: string): seq<string> {
    if LabelFileName(imageName) in ds.labelFiles then ds.labelFiles[LabelFileName(imageName)] else []
  }

  /** The annotations of the images `images` (image `k` having id `k + 1`), in order. */
  function AllBodies(ds: Dataset, images: seq<string>,
                     parseFloat: string -> Option<real>): Result<seq<AnnotationBody>, ConvertError>
    decreases |images|
  {
    if images == [] then Success([])
    else
      match AllBodies(ds, images[..|images| - 1], parseFloat)
      case Failure(e) => Failure(e)
      case Success(front) =>
        var name := images[|images| - 1];
        match LineBodies(ImageLines(ds, name), |images|, ds.imageSize(name), parseFloat)
        case Failure(e) => Failure(e)
        case Success(more) => Success(front + more)
  }

  datatype ImageEntry = ImageEntry(id: nat, fileName: string, width: int, height: int)

  datatype Annotation = Annotation(id: nat, imageId: nat, categoryId: nat, bbox: CocoBox,
                                   area: real, iscrowd: int)

  datatype CocoOutput = CocoOutput(images: seq<ImageEntry>, annotations: seq<Annotation>,
                                   categories: seq<CocoCategory>)

  /** A finished conversion: the document written, and the images a warning was printed for. */
  datatype ConvertRun = ConvertRun(output: CocoOutput, warnings: seq<string>)

  /** Image entries numbered 1, 2, ... in the order of `images`. */
  function ImageEntries(ds: Dataset, images: seq<string>): (entries: seq<ImageEntry>)
    ensures |entries| == |images|
    ensures forall k | 0 <= k < |entries| :: entries[k].id == k + 1 && entries[k].fileName == images[k]
  {
    seq(|images|, k requires 0 <= k < |images| =>
      ImageEntry(k + 1, images[k], ds.imageSize(images[k]).width, ds.imageSize(images[k]).height))
  }

  /** `bbox[2] * bbox[3]`. */
  function Area(box: CocoBox): real {
    box.w * box.h
  }

  /** `[round(coord, 2) for coord in bbox]`, with Python's two-decimal rounding given as
      `round2`. */
  function RoundBox(box: CocoBox, round2: real -> real): CocoBox {
    CocoBox(round2(box.xMin), round2(box.yMin), round2(box.w), round2(box.h))
  }

  /** The annotation with id `id` made from a body: the box rounded to two decimals, the area
      `w * h` of the unrounded box rounded to two decimals, and never crowd. */
  function ToAnnotation(b: AnnotationBody, id: nat, round2: real -> real): Annotation {
    Annotation(id, b.imageId, b.categoryId, RoundBox(b.bbox, round2), round2(Area(b.bbox)), 0)
  }

  /** The annotation made from a body keeps its image and category, rounds each coordinate of
      its box, and rounds the area `w * h` of the unrounded box. */
  lemma AnnotationOfBox(imageId: nat, categoryId: nat, box: CocoBox, id: nat, round2: real -> real)
    ensures ToAnnotation(AnnotationBody(imageId, categoryId, box), id, round2)
      == Annotation(id, imageId, categoryId, RoundBox(box, round2), round2(Area(box)), 0)
  {
    var body := AnnotationBody(imageId, categoryId, box);
    assert body.bbox == box;
  }

  /** A box's area is the product of any width and height equal to its sides. */
  lemma AreaOfSides(box: CocoBox, w: real, h: real)
    requires box.w == w && box.h == h
    ensures Area(box) == w * h
  {
  }

  /** The number a label line carries at token `k`, as `float()` reads it. */
  function Number(line: string, k: nat, parseFloat: string -> Option<real>): real
    requires k < |Split(Strip(line))| && parseFloat(Split(Strip(line))[k]).Some?
  {
    parseFloat(Split(Strip(line))[k]).value
  }

  /** The annotation a kept line produces: its category is CLASS_MAP of the class token, its box
      is the unrounded box rounded coordinate by coordinate, and its area is the unrounded box's
      `w * h`, rounded. The unrounded box's width and height are the line's last two numbers
      scaled to the image. */
  lemma KeptLineAnnotation(line: string, size: ImageSize, parseFloat: string -> Option<real>,
                           round2: real -> real, imageId: nat, id: nat)
    ensures ParseLabelLine(line, size, parseFloat).Kept? ==>
      && |Split(Strip(line))| == 5
      && parseFloat(Split(Strip(line))[3]).Some? && parseFloat(Split(Strip(line))[4]).Some?
    ensures ParseLabelLine(line, size, parseFloat).Kept? ==>
      ToAnnotation(AnnotationBody(imageId, ParseLabelLine(line, size, parseFloat).categoryId,
                                  ParseLabelLine(line, size, parseFloat).box), id, round2)
      == Annotation(id, imageId, ClassMap[Split(Strip(line))[0]],
                    RoundBox(ParseLabelLine(line, size, parseFloat).box, round2),
                    round2(Area(ParseLabelLine(line, size, parseFloat).box)), 0)
    ensures ParseLabelLine(line, size, parseFloat).Kept? ==>
      && ParseLabelLine(line, size, parseFloat).box.w == Number(line, 3, parseFloat) * size.width as real
      && ParseLabelLine(line, size, parseFloat).box.h == Number(line, 4, parseFloat) * size.height as real
      && Area(ParseLabelLine(line, size, parseFloat).box)
         == (Number(line, 3, parseFloat) * size.width as real) * (Number(line, 4, parseFloat) * size.height as real)
  {
    ParseLabelLineCases(line, size, parseFloat);
    var outcome := ParseLabelLine(line, size, parseFloat);
    if outcome.Kept? {
      AnnotationOfBox(imageId, outcome.categoryId, outcome.box, id, round2);
      assert outcome.box.w == Number(line, 3, parseFloat) * size.width as real;
      assert outcome.box.h == Number(line, 4, parseFloat) * size.height as real;
      AreaOfSides(outcome.box, Number(line, 3, parseFloat) * size.width as real,
                  Number(line, 4, parseFloat) * size.height as real);
    }
  }

  /** Annotations numbered `first`, `first + 1`, ... in the order of `bodies`. */
  function Numbered(bodies: seq<AnnotationBody>, first: nat, round2: real -> real): (anns: seq<Annotation>)
    ensures |anns| == |bodies|
    ensures forall k | 0 <= k < |anns| :: anns[k].id == first + k && anns[k].iscrowd == 0
  {
    seq(|bodies|, k requires 0 <= k < |bodies| => ToAnnotation(bodies[k], first + k, round2))
  }

  /** The images, in order, whose label file does not exist: each gets a warning. */
  function MissingLabels(ds: Dataset, images: seq<string>): seq<string>
    decreases |images|
  {
    if images == [] then []
    else
      var front := MissingLabels(ds, images[..|images| - 1]);
      var name := images[|images| - 1];
      if LabelFileName(name) in ds.labelFiles then front else front + [name]
  }

  // ---------------------------------------------------------------- convert

  lemma ImageFilesSkip(listing: seq<string>, i: nat)
    requires i < |listing| && !IsImageFile(listing[i])
    ensures ImageFiles(listing[..i + 1]) == ImageFiles(listing[..i])
  {
    assert listing[..i + 1][..i] == listing[..i];
  }

  lemma ImageFilesTake(listing: seq<string>, i: nat)
    requires i < |listing| && IsImageFile(listing[i])
    ensures ImageFiles(listing[..i + 1]) == ImageFiles(listing[..i]) + [listing[i]]
  {
    assert listing[..i + 1][..i] == listing[..i];
  }

  lemma {:induction false} ImageFilesAppend(a: seq<string>, b: seq<string>)
    ensures ImageFiles(a + b) == ImageFiles(a) + ImageFiles(b)
    decreases |b|
  {
    var ab := a + b;
    if b == [] {
      assert ab == a;
    } else {
      assert ab[..|ab| - 1] == a + b[..|b| - 1];
      assert ab[|ab| - 1] == b[|b| - 1];
      ImageFilesAppend(a, b[..|b| - 1]);
    }
  }

  lemma NumberedAppend(a: seq<AnnotationBody>, b: seq<AnnotationBody>, first: nat, round2: real -> real)
    ensures Numbered(a + b, first, round2) == Numbered(a, first, round2) + Numbered(b, first + |a|, round2)
  {
    var ab := a + b;
    var lhs, rhs := Numbered(ab, first, round2), Numbered(a, first, round2) + Numbered(b, first + |a|, round2);
    forall k | 0 <= k < |ab| ensures lhs[k] == rhs[k] {
      if k >= |a| {
        assert ab[k] == b[k - |a|];
      }
    }
  }

  lemma NumberedStep(bodies: seq<AnnotationBody>, b: AnnotationBody, first: nat, round2: real -> real)
    ensures Numbered(bodies + [b], first, round2) == Numbered(bodies, first, round2) + [ToAnnotation(b, first + |bodies|, round2)]
  {
    var lhs, rhs := Numbered(bodies + [b], first, round2), Numbered(bodies, first, round2) + [ToAnnotation(b, first + |bodies|, round2)];
    forall k | 0 <= k < |bodies| + 1 ensures lhs[k] == rhs[k] {
      if k < |bodies| {
        assert (bodies + [b])[k] == bodies[k];
      }
    }
  }

  lemma ImageEntriesStep(ds: Dataset, images: seq<string>, name: string)
    ensures ImageEntries(ds, images + [name]) ==
      ImageEntries(ds, images) + [ImageEntry(|images| + 1, name, ds.imageSize(name).width, ds.imageSize(name).height)]
  {
  }

  lemma AllBodiesStep(ds: Dataset, images: seq<string>, name: string,
                      parseFloat: string -> Option<real>, bodies: seq<AnnotationBody>)
    requires AllBodies(ds, images, parseFloat) == Success(bodies)
    ensures AllBodies(ds, images + [name], parseFloat) ==
      var file := LineBodies(ImageLines(ds, name), |images| + 1, ds.imageSize(name), parseFloat);
      if file.Failure? then Failure(file.error) else Success(bodies + file.value)
  {
    var next := images + [name];
    assert next[..|images|] == images && next[|images|] == name;
  }

  /** An image without a label file adds no annotation and one warning. */
  lemma NextImageMissing(ds: Dataset, jpgs: seq<string>, name: string,
                         parseFloat: string -> Option<real>, bodies: seq<AnnotationBody>)
    requires AllBodies(ds, jpgs, parseFloat) == Success(bodies)
    requires LabelFileName(name) !in ds.labelFiles
    ensures AllBodies(ds, jpgs + [name], parseFloat) == Success(bodies)
    ensures MissingLabels(ds, jpgs + [name]) == MissingLabels(ds, jpgs) + [name]
  {
    AllBodiesStep(ds, jpgs, name, parseFloat, bodies);
    assert bodies + [] == bodies;
    assert (jpgs + [name])[..|jpgs|] == jpgs;
  }

  /** An image whose label file reads without error adds that file's annotations, numbered on
      from those before it. */
  lemma NextImageRead(ds: Dataset, jpgs: seq<string>, name: string,
                      parseFloat: string -> Option<real>, round2: real -> real, bodies: seq<AnnotationBody>)
    requires AllBodies(ds, jpgs, parseFloat) == Success(bodies)
    requires LabelFileName(name) in ds.labelFiles
    requires LineBodies(ds.labelFiles[LabelFileName(name)], |jpgs| + 1, ds.imageSize(name), parseFloat).Success?
    ensures var file := LineBodies(ds.labelFiles[LabelFileName(name)], |jpgs| + 1, ds.imageSize(name), parseFloat).value;
      && AllBodies(ds, jpgs + [name], parseFloat) == Success(bodies + file)
      && Numbered(bodies + file, 1, round2) == Numbered(bodies, 1, round2) + Numbered(file, |bodies| + 1, round2)
    ensures MissingLabels(ds, jpgs + [name]) == MissingLabels(ds, jpgs)
  {
    AllBodiesStep(ds, jpgs, name, parseFloat, bodies);
    NumberedAppend(bodies, LineBodies(ds.labelFiles[LabelFileName(name)], |jpgs| + 1, ds.imageSize(name), parseFloat).value, 1, round2);
    assert (jpgs + [name])[..|jpgs|] == jpgs;
  }

  /** Once the conversion has failed on some image, later images do not change the error. */
  lemma {:induction false} FailureSticks(ds: Dataset, front: seq<string>, back: seq<string>,
                                          parseFloat: string -> Option<real>)
    requires AllBodies(ds, front, parseFloat).Failure?
    ensures AllBodies(ds, front + back, parseFloat) == AllBodies(ds, front, parseFloat)
    decreases |back|
  {
    var all := front + back;
    if back == [] {
      assert all == front;
    } else {
      assert all[..|all| - 1] == front + back[..|back| - 1];
      FailureSticks(ds, front, back[..|back| - 1], parseFloat);
    }
  }

  /** A label file that fails to read makes the whole conversion fail with its error. */
  lemma NextImageFails(ds: Dataset, i: nat, jpgs: seq<string>,
                       parseFloat: string -> Option<real>, bodies: seq<AnnotationBody>)
    requires i < |ds.listing| && IsImageFile(ds.listing[i])
    requires jpgs == ImageFiles(ds.listing[..i])
    requires AllBodies(ds, jpgs, parseFloat) == Success(bodies)
    requires LabelFileName(ds.listing[i]) in ds.labelFiles
    requires LineBodies(ds.labelFiles[LabelFileName(ds.listing[i])], |jpgs| + 1,
                        ds.imageSize(ds.listing[i]), parseFloat).Failure?
    ensures AllBodies(ds, ImageFiles(ds.listing), parseFloat) ==
      Failure(LineBodies(ds.labelFiles[LabelFileName(ds.listing[i])], |jpgs| + 1,
                         ds.imageSize(ds.listing[i]), parseFloat).error)
  {
    var next := jpgs + [ds.listing[i]];
    AllBodiesStep(ds, jpgs, ds.listing[i], parseFloat, bodies);
    ImageFilesTake(ds.listing, i);
    ImageFilesAppend(ds.listing[..i + 1], ds.listing[i + 1..]);
    assert ds.listing[..i + 1] + ds.listing[i + 1..] == ds.listing;
    FailureSticks(ds, next, ImageFiles(ds.listing[i + 1..]), parseFloat);
  }

  /** Once a label file has failed at some line, later lines do not change the error. */
  lemma {:induction false} LineFailureSticks(lines: seq<string>, j: nat, imageId: nat, size: ImageSize,
                                              parseFloat: string -> Option<real>)
    requires j <= |lines|
    requires LineBodies(lines[..j], imageId, size, parseFloat).Failure?
    ensures LineBodies(lines, imageId, size, parseFloat) == LineBodies(lines[..j], imageId, size, parseFloat)
    decreases |lines| - j
  {
    if j < |lines| {
      assert lines[..j + 1][..j] == lines[..j];
      LineFailureSticks(lines, j + 1, imageId, size, parseFloat);
    } else {
      assert lines[..j] == lines;
    }
  }

  lemma LineBodiesStep(lines: seq<string>, j: nat, imageId: nat, size: ImageSize,
                       parseFloat: string -> Option<real>, bodies: seq<AnnotationBody>)
    requires j < |lines|
    requires LineBodies(lines[..j], imageId, size, parseFloat) == Success(bodies)
    ensures LineBodies(lines[..j + 1], imageId, size, parseFloat) ==
      AddLine(bodies, imageId, ParseLabelLine(lines[j], size, parseFloat))
  {
    assert lines[..j + 1][..j] == lines[..j];
  }

  /** The inner loop of `convert`: the annotations of one label file, numbered from `firstId`,
      or the error of the first number that does not parse. */
  method ReadLabelFile(lines: seq<string>, imageId: nat, firstId: nat, size: ImageSize,
                       parseFloat: string -> Option<real>, round2: real -> real) returns (r: Result<seq<Annotation>, ConvertError>)
    ensures r.Failure? <==> LineBodies(lines, imageId, size, parseFloat).Failure?
    ensures r.Failure? ==> r.error == LineBodies(lines, imageId, size, parseFloat).error
    ensures r.Success? ==> r.value == Numbered(LineBodies(lines, imageId, size, parseFloat).value, firstId, round2)
  {
    var annotations: seq<Annotation> := [];
    var annId := firstId;
    ghost var bodies: seq<AnnotationBody> := [];
    for j := 0 to |lines|
      invariant LineBodies(lines[..j], imageId, size, parseFloat) == Success(bodies)
      invariant annotations == Numbered(bodies, firstId, round2)
      invariant annId == firstId + |bodies|
    {
      LineBodiesStep(lines, j, imageId, size, parseFloat, bodies);
      var outcome := ParseLabelLine(lines[j], size, parseFloat);
      match outcome
      case Skipped =>
        assert LineBodies(lines[..j + 1], imageId, size, parseFloat) == Success(bodies);
      case Rejected(e) =>
        LineFailureSticks(lines, j + 1, imageId, size, parseFloat);
        return Failure(e);
      case Kept(category, bbox) =>
        var b := AnnotationBody(imageId, category, bbox);
        NumberedStep(bodies, b, firstId, round2);
        annotations := annotations + [ToAnnotation(b, annId, round2)];
        annId := annId + 1;
        assert LineBodies(lines[..j + 1], imageId, size, parseFloat) == Success(bodies + [b]);
        bodies := bodies + [b];
    }
    assert lines[..|lines|] == lines;
    return Success(annotations);
  }

  /** `convert`. Numbers every `.jpg` image in listing order, reads its label file when there is
      one, and numbers the annotations of the kept lines across all images; stops with the error
      of the first number that does not parse. */
  method Convert(ds: Dataset, parseFloat: string -> Option<real>, round2: real -> real) returns (r: Result<ConvertRun, ConvertError>)
    ensures r.Failure? <==> AllBodies(ds, ImageFiles(ds.listing), parseFloat).Failure?
    ensures r.Failure? ==> r.error == AllBodies(ds, ImageFiles(ds.listing), parseFloat).error
    ensures r.Success? ==>
      && r.value.output.images == ImageEntries(ds, ImageFiles(ds.listing))
      && r.value.output.annotations == Numbered(AllBodies(ds, ImageFiles(ds.listing), parseFloat).value, 1, round2)
      && r.value.output.categories == Categories
      && r.value.warnings == MissingLabels(ds, ImageFiles(ds.listing))
  {
    var images: seq<ImageEntry> := [];
    var annotations: seq<Annotation> := [];
    var warnings: seq<string> := [];
    var annId, imgId := 1, 1;
    ghost var jpgs: seq<string> := [];
    ghost var bodies: seq<AnnotationBody> := [];

    for i := 0 to |ds.listing|
      invariant jpgs == ImageFiles(ds.listing[..i])
      invariant AllBodies(ds, jpgs, parseFloat) == Success(bodies)
      invariant imgId == |jpgs| + 1 && annId == |bodies| + 1
      invariant images == ImageEntries(ds, jpgs)
      invariant annotations == Numbered(bodies, 1, round2)
      invariant warnings == MissingLabels(ds, jpgs)
    {
      var filename := ds.listing[i];
      if !IsImageFile(filename) {
        ImageFilesSkip(ds.listing, i);
      } else {
        var labelName := LabelFileName(filename);
        var size := ds.imageSize(filename);
        assert ImageFiles(ds.listing[..i + 1]) == jpgs + [filename] by {
          ImageFilesTake(ds.listing, i);
        }
        assert ImageEntries(ds, jpgs + [filename]) == images + [ImageEntry(imgId, filename, size.width, size.height)] by {
          ImageEntriesStep(ds, jpgs, filename);
        }
        images := images + [ImageEntry(imgId, filename, size.width, size.height)];

        if labelName !in ds.labelFiles {
          assert AllBodies(ds, jpgs + [filename], parseFloat) == Success(bodies)
              && MissingLabels(ds, jpgs + [filename]) == warnings + [filename] by {
            NextImageMissing(ds, jpgs, filename, parseFloat, bodies);
          }
          warnings := warnings + [filename];
        } else {
          var fileResult := ReadLabelFile(ds.labelFiles[labelName], imgId, annId, size, parseFloat, round2);
          if fileResult.Failure? {
            NextImageFails(ds, i, jpgs, parseFloat, bodies);
            return Failure(fileResult.error);
          }
          ghost var file := LineBodies(ds.labelFiles[labelName], imgId, size, parseFloat).value;
          assert && AllBodies(ds, jpgs + [filename], parseFloat) == Success(bodies + file)
                 && annotations + fileResult.value == Numbered(bodies + file, 1, round2)
                 && MissingLabels(ds, jpgs + [filename]) == warnings by {
            NextImageRead(ds, jpgs, filename, parseFloat, round2, bodies);
          }
          annotations := annotations + fileResult.value;
          annId := annId + |fileResult.value|;
          bodies := bodies + file;
        }
        jpgs := jpgs + [filename];
        imgId := imgId + 1;
      }
    }
    assert ds.listing[..|ds.listing|] == ds.listing;
    return Success(ConvertRun(CocoOutput(images, annotations, Categories), warnings));
  }

  // ---------------------------------------------------------------- what a conversion promises

  /** Exactly the `.jpg` files of the listing become images. */
  lemma {:induction false} ImageFilesMembers(listing: seq<string>)
    ensures forall name :: name in ImageFiles(listing) <==> name in listing && IsImageFile(name)
    decreases |listing|
  {
    if listing != [] {
      var front := listing[..|listing| - 1];
      ImageFilesMembers(front);
      assert listing == front + [listing[|listing| - 1]];
    }
  }

  /** A warning is printed exactly for the images that have no label file. */
  lemma {:induction false} MissingLabelsMembers(ds: Dataset, images: seq<string>)
    ensures forall name :: name in MissingLabels(ds, images) <==>
      name in images && LabelFileName(name) !in ds.labelFiles
    decreases |images|
  {
    if images != [] {
      var front := images[..|images| - 1];
      MissingLabelsMembers(ds, front);
      assert images == front + [images[|images| - 1]];
    }
  }

  /** Annotation bodies whose image ids lie in `1..imageCount`, never decrease, and whose
      categories are COCO category ids of CATEGORIES. */
  predicate WellFormedBodies(bodies: seq<AnnotationBody>, imageCount: nat) {
    && (forall k | 0 <= k < |bodies| :: 1 <= bodies[k].imageId <= imageCount)
    && (forall k | 0 <= k < |bodies| :: bodies[k].categoryId == 1 || bodies[k].categoryId == 2)
    && (forall k, l | 0 <= k < l < |bodies| :: bodies[k].imageId <= bodies[l].imageId)
  }

  /** Every annotation belongs to image `imageId` and has a category of CATEGORIES. */
  predicate BelongTo(bodies: seq<AnnotationBody>, imageId: nat) {
    forall k | 0 <= k < |bodies| ::
      bodies[k].imageId == imageId && (bodies[k].categoryId == 1 || bodies[k].categoryId == 2)
  }

  /** Every annotation read from one label file belongs to that file's image and has a category
      of CATEGORIES. */
  lemma {:induction false} LineBodiesBelong(lines: seq<string>, imageId: nat, size: ImageSize,
                                            parseFloat: string -> Option<real>)
    ensures LineBodies(lines, imageId, size, parseFloat).Success? ==>
      BelongTo(LineBodies(lines, imageId, size, parseFloat).value, imageId)
    decreases |lines|
  {
    if lines != [] {
      var front := lines[..|lines| - 1];
      LineBodiesBelong(front, imageId, size, parseFloat);
      var outcome := ParseLabelLine(lines[|lines| - 1], size, parseFloat);
      var before := LineBodies(front, imageId, size, parseFloat);
      if before.Success? && outcome.Kept? {
        var bodies := before.value + [AnnotationBody(imageId, outcome.categoryId, outcome.box)];
        assert LineBodies(lines, imageId, size, parseFloat) == Success(bodies);
        forall k | 0 <= k < |bodies|
          ensures bodies[k].imageId == imageId && (bodies[k].categoryId == 1 || bodies[k].categoryId == 2)
        {
          if k < |before.value| { assert bodies[k] == before.value[k]; }
        }
      }
    }
  }

  /** A successful conversion of some images is the conversion of all but the last, followed by
      the annotations of the last image's label file. */
  lemma AllBodiesLast(ds: Dataset, images: seq<string>, parseFloat: string -> Option<real>)
    requires images != [] && AllBodies(ds, images, parseFloat).Success?
    ensures AllBodies(ds, images[..|images| - 1], parseFloat).Success?
    ensures LineBodies(ImageLines(ds, images[|images| - 1]), |images|,
                       ds.imageSize(images[|images| - 1]), parseFloat).Success?
    ensures AllBodies(ds, images, parseFloat).value ==
      AllBodies(ds, images[..|images| - 1], parseFloat).value +
      LineBodies(ImageLines(ds, images[|images| - 1]), |images|,
                 ds.imageSize(images[|images| - 1]), parseFloat).value
  {
  }

  /** Joining well-formed annotations of the first `n - 1` images with annotations of image `n`
      keeps them well formed. */
  lemma WellFormedAppend(front: seq<AnnotationBody>, more: seq<AnnotationBody>, n: nat)
    requires n >= 1 && WellFormedBodies(front, n - 1)
    requires BelongTo(more, n)
    ensures WellFormedBodies(front + more, n)
  {
    var all := front + more;
    forall k | 0 <= k < |all|
      ensures 1 <= all[k].imageId <= n && (all[k].categoryId == 1 || all[k].categoryId == 2)
    {
      if k >= |front| { assert all[k] == more[k - |front|]; } else { assert all[k] == front[k]; }
    }
    forall k, l | 0 <= k < l < |all| ensures all[k].imageId <= all[l].imageId {
      if l >= |front| {
        assert all[l] == more[l - |front|];
        if k >= |front| { assert all[k] == more[k - |front|]; } else { assert all[k] == front[k]; }
      } else {
        assert all[k] == front[k] && all[l] == front[l];
      }
    }
  }

  /** The annotations of a conversion point at images that exist, in image order, and carry a
      category of CATEGORIES. */
  lemma {:induction false} AllBodiesWellFormed(ds: Dataset, images: seq<string>,
                                               parseFloat: string -> Option<real>)
    ensures AllBodies(ds, images, parseFloat).Success? ==>
      WellFormedBodies(AllBodies(ds, images, parseFloat).value, |images|)
    decreases |images|
  {
    if images != [] && AllBodies(ds, images, parseFloat).Success? {
      var n := |images|;
      var name := images[n - 1];
      AllBodiesLast(ds, images, parseFloat);
      AllBodiesWellFormed(ds, images[..n - 1], parseFloat);
      LineBodiesBelong(ImageLines(ds, name), n, ds.imageSize(name), parseFloat);
      WellFormedAppend(AllBodies(ds, images[..n - 1], parseFloat).value,
                       LineBodies(ImageLines(ds, name), n, ds.imageSize(name), parseFloat).value, n);
    }
  }

  /** The annotation list of a COCO document over `imageCount` images: ids 1, 2, ..., never
      crowd, image ids of existing images in non-decreasing order, and categories of
      CATEGORIES. */
  predicate WellFormedAnnotations(anns: seq<Annotation>, imageCount: nat) {
    && (forall k | 0 <= k < |anns| :: anns[k].id == k + 1 && anns[k].iscrowd == 0)
    && (forall k | 0 <= k < |anns| :: 1 <= anns[k].imageId <= imageCount
          && (anns[k].categoryId == 1 || anns[k].categoryId == 2))
    && (forall k, l | 0 <= k < l < |anns| :: anns[k].imageId <= anns[l].imageId)
  }

  lemma NumberedWellFormed(bodies: seq<AnnotationBody>, imageCount: nat, round2: real -> real)
    requires WellFormedBodies(bodies, imageCount)
    ensures WellFormedAnnotations(Numbered(bodies, 1, round2), imageCount)
  {
    var anns := Numbered(bodies, 1, round2);
    forall k | 0 <= k < |anns|
      ensures anns[k].imageId == bodies[k].imageId && anns[k].categoryId == bodies[k].categoryId
    {
    }
  }

  /** The image list a successful `convert` writes: one entry per `.jpg` file of the listing,
      numbered from 1. */
  lemma ConvertImagesAreJpgs(ds: Dataset)
    ensures forall k | 0 <= k < |ImageEntries(ds, ImageFiles(ds.listing))| ::
      var entry := ImageEntries(ds, ImageFiles(ds.listing))[k];
      entry.id == k + 1 && IsImageFile(entry.fileName) && entry.fileName in ds.listing
  {
    var jpgs := ImageFiles(ds.listing);
    ImageFilesMembers(ds.listing);
    var images := ImageEntries(ds, jpgs);
    forall k | 0 <= k < |images| ensures IsImageFile(images[k].fileName) && images[k].fileName in ds.listing {
      assert images[k].fileName == jpgs[k];
      assert jpgs[k] in jpgs;
    }
  }

  /** The annotation list a successful `convert` writes is well formed over its images. */
  lemma ConvertAnnotationsWellFormed(ds: Dataset, parseFloat: string -> Option<real>, round2: real -> real)
    ensures AllBodies(ds, ImageFiles(ds.listing), parseFloat).Success? ==>
      WellFormedAnnotations(Numbered(AllBodies(ds, ImageFiles(ds.listing), parseFloat).value, 1, round2),
                            |ImageEntries(ds, ImageFiles(ds.listing))|)
  {
    var jpgs := ImageFiles(ds.listing);
    AllBodiesWellFormed(ds, jpgs, parseFloat);
    if AllBodies(ds, jpgs, parseFloat).Success? {
      NumberedWellFormed(AllBodies(ds, jpgs, parseFloat).value, |jpgs|, round2);
    }
  }
}
