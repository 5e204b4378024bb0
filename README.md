# Tracking and labelling pipeline, modelled in Dafny

This project models the logic of three scripts in a vehicle/pedestrian detection repository and proves what each of them does:

- **`video_tracking_demo/tracking/byte_tracker.py`** (module `ByteTracker`):
  - the frame-rate guard `_safe_fps`;
  - the codec fallback `_open_writer`;
  - class-name resolution `_get_class_name` over a list or dictionary table;
  - the two-class normaliser `_map_binary`;
  - the early exits and the frame/object aggregation loops of `track_video`.
- **`labeller_sdk/convert_to_coco.py`** (module `ConvertToCoco`):
  - `CLASS_MAP`, `CATEGORIES` and `yolo_to_coco_bbox`;
  - the `convert` loop. It keeps the `.jpg` files of a listing, numbers images and annotations, reads one label file per image, and warns about missing label files.
- **`inference/run_inference_label.py`** (module `RunInferenceLabel`):
  - `save_yolo_labels`. It writes one YOLO label file per detection result, named after the image, with only the class-0/1 boxes, in detector order.
- **Module `LabelRoundTrip`** connects the last two: a label file written by `save_yolo_labels` is read back by `convert` line for line. This holds whenever `f"{x:.6f}"` yields one whitespace-free token that `float()` reads back as `x` rounded to six decimals.

The Python built-ins these scripts rely on are written out over `seq<char>` in supporting modules:

- `PyText`: `str.isspace`, `strip`, `lower`, `split()`, `" ".join`, `in` on strings, `str(int)`.
- `PyPath`: `os.path.basename`, `os.path.splitext`, `os.path.join`, and `pathlib`'s `with_suffix`.
- `PyNum`: `int()`/`astype(int)` truncation toward zero, and the length `zip` stops at.
- `Wrappers`: the `Option` and `Result` types.

Everything outside the scripts becomes an input:

- the detector and tracker are input sequences of frames or results;
- the video capture is a record of what it reports;
- whether a video writer opens is a predicate on the request;
- the image sizes PIL reports are a function of the file name;
- the label directory is a map from file name to lines;
- Python's `float()`, `round(x, 2)` and `f"{x:.6f}"` are function parameters.

The JSON documents are returned values.

The loops of `_open_writer`, `track_video`, `convert` and `save_yolo_labels` are methods with loop invariants. Each method is proved equal to a reference function: a recursive one, or a sequence built element by element. The element-by-element ones are `FrameObjects` and `TrackingRun` for the frame loops of `track_video`, `ImageEntries` and `Numbered` for the images and annotation ids of `convert`, and `Numbered` again for the annotation ids `ReadLabelFile` assigns. The properties of the scripts are then proved about those functions.

## Model

| member | source | states |
|---|---|---|
| ByteTracker.SafeFps | video_tracking_demo/tracking/byte_tracker.py:7-14 | the rate is always positive; a finite positive rate passes unchanged; any result other than 25.0 is the reported finite rate itself |
| ByteTracker.SafeFpsIdempotent | video_tracking_demo/tracking/byte_tracker.py:7-14 | guarding an already guarded rate changes nothing |
| ByteTracker.SafeFpsExamples | video_tracking_demo/tracking/byte_tracker.py:9-12 | 0, -5, a non-finite value and a non-numeric value give 25.0; 30 and 59.94 pass through |
| ByteTracker.WriterRate | video_tracking_demo/tracking/byte_tracker.py:28 | the rate given to the writer is `max(fps, 1.0)`: at least 1.0, at least fps, and one of the two |
| ByteTracker.OpenWriter | video_tracking_demo/tracking/byte_tracker.py:16-33 | the loop over the candidates, with its early return, ends with the outcome of trying them in order |
| ByteTracker.SelectWriter | video_tracking_demo/tracking/byte_tracker.py:23-33 | the candidate loop of `_open_writer` as recursion from candidate `i`: a path that cannot be built is refused, the first candidate whose writer opens is used with its path and codec, and running out of candidates means nothing opened. `SelectWriterIsFirstOpening` and `SelectWriterFirstSuccess` state what it returns |
| ByteTracker.CandidateExtensionsAreExtensions | video_tracking_demo/tracking/byte_tracker.py:18-22 | both candidate extensions are suffixes that `with_suffix` accepts |
| ByteTracker.FirstOpening | video_tracking_demo/tracking/byte_tracker.py:23-31 | the index it returns is the first candidate from `i` whose writer opens: every earlier one fails, and it opens unless no candidate does |
| ByteTracker.CandidatePath | video_tracking_demo/tracking/byte_tracker.py:24 | a candidate's path fails to build exactly when the base path has no final component; otherwise its basename carries that candidate's extension |
| ByteTracker.SelectWriterIsFirstOpening | video_tracking_demo/tracking/byte_tracker.py:23-33 | trying the candidates in order from `i` gives the first-success reference outcome |
| ByteTracker.SelectWriterFirstSuccess | video_tracking_demo/tracking/byte_tracker.py:16-33 | a base path with no final component is refused (in both directions); nothing opens exactly when every candidate fails; otherwise the first candidate that opens is used, with its codec. Its path is exactly `with_suffix` of the base path with that candidate's extension, so its basename carries that extension |
| ByteTracker.GetClassName | video_tracking_demo/tracking/byte_tracker.py:35-52 | the resolved name is an entry of the table or the `class_<id>` placeholder |
| ByteTracker.SequenceLookup | video_tracking_demo/tracking/byte_tracker.py:41-52 | a list table answers `names[id]` for ids in range; every other id, negative ones included, gets the placeholder |
| ByteTracker.MappingLookup | video_tracking_demo/tracking/byte_tracker.py:44-51 | a dictionary table: a non-empty integer-key entry wins; an absent or empty one falls through to the string key, whose entry is returned even when empty; otherwise the placeholder is returned |
| ByteTracker.Placeholder | video_tracking_demo/tracking/byte_tracker.py:50-52 | `f"class_{cls_id}"`, the name of a class the table does not resolve. `PlaceholderInjective` and `PlaceholderIsVehicle` state its properties |
| ByteTracker.PlaceholderInjective | video_tracking_demo/tracking/byte_tracker.py:50-52 | different class ids never share a placeholder |
| ByteTracker.MapBinary | video_tracking_demo/tracking/byte_tracker.py:54-64 | the colour is fixed by the category: green (0,255,0) for pedestrians, blue (255,0,0) for vehicles |
| ByteTracker.ColorOf | video_tracking_demo/tracking/byte_tracker.py:63-64 | the drawing colour of each category, in BGR order: (0, 255, 0) for pedestrians and (255, 0, 0) for vehicles |
| ByteTracker.HasTracks | video_tracking_demo/tracking/byte_tracker.py:100 | the guard `result.boxes is not None and result.boxes.id is not None`. `FrameObjectsFaithful` states that a frame failing it records no objects |
| ByteTracker.TruncBox | video_tracking_demo/tracking/byte_tracker.py:107 | `map(int, box)`: each corner coordinate truncated toward zero, as `PyNum.Trunc` states |
| ByteTracker.RecordAt | video_tracking_demo/tracking/byte_tracker.py:107-125 | the object dict of the `k`-th zipped tuple: `int(track_id)`, the `_map_binary` category of the resolved class name, the confidence, and the truncated box. `FrameObjectsFaithful` states each field against that tuple |
| ByteTracker.ContainsIgnoresSurroundingSpace | video_tracking_demo/tracking/byte_tracker.py:61-62 | a whitespace-free token occurs in the stripped, lowered name exactly when it occurs in the lowered name |
| ByteTracker.MapBinaryClassifies | video_tracking_demo/tracking/byte_tracker.py:61-64 | a name is a pedestrian exactly when one of "person", "pedestrian", "people", "human" occurs in it, ignoring case and surrounding whitespace; it is a vehicle exactly when none occurs |
| ByteTracker.NoTokenInitialIsVehicle | video_tracking_demo/tracking/byte_tracker.py:62-64 | a name with no character that lowers to 'p' or 'h' is a vehicle |
| ByteTracker.LeadingTokenIsPedestrian | video_tracking_demo/tracking/byte_tracker.py:62-63 | a name whose lowered form starts with a person token is a pedestrian |
| ByteTracker.MapBinaryCarExample | video_tracking_demo/tracking/byte_tracker.py:61-64 | "car" and "" are vehicles |
| ByteTracker.MapBinaryTruckExample | video_tracking_demo/tracking/byte_tracker.py:61-64 | "truck" is a vehicle |
| ByteTracker.MapBinaryBicycleExample | video_tracking_demo/tracking/byte_tracker.py:61-64 | "bicycle" is a vehicle |
| ByteTracker.MapBinaryPersonExample | video_tracking_demo/tracking/byte_tracker.py:61-63 | "Person" is a pedestrian |
| ByteTracker.MapBinaryPedestrianExample | video_tracking_demo/tracking/byte_tracker.py:61-63 | "PEDESTRIAN" is a pedestrian |
| ByteTracker.MapBinaryPeopleExample | video_tracking_demo/tracking/byte_tracker.py:61-63 | "PEOPLE" is a pedestrian |
| ByteTracker.PlaceholderIsVehicle | video_tracking_demo/tracking/byte_tracker.py:50-64 | the `class_<id>` placeholder of an unresolved class is always a vehicle |
| ByteTracker.ZipLength | video_tracking_demo/tracking/byte_tracker.py:106 | `zip` over the four arrays yields as many tuples as the shortest of them |
| ByteTracker.CollectFrameObjects | video_tracking_demo/tracking/byte_tracker.py:100-125 | a frame without boxes or ids gives no objects; otherwise one record per zipped tuple, in tracker order, each with the truncated id and box, the confidence, and the normalised class of its resolved name |
| ByteTracker.FrameObjects | video_tracking_demo/tracking/byte_tracker.py:100-125 | the reference for one frame: no objects when boxes or ids are missing, otherwise one record per zipped tuple, in tracker order. `FrameObjectsFaithful` states its count and every field of each record |
| ByteTracker.TrackingRun | video_tracking_demo/tracking/byte_tracker.py:95-127 | the reference for a whole run: frame `k` gets number `k + 1` and that frame's objects. `AggregateFrames` is proved equal to it |
| ByteTracker.WriterFor | video_tracking_demo/tracking/byte_tracker.py:74-79 | the `_open_writer` call: the capture's rate through `_safe_fps`, its width and height through `int()`, and the requested output path. `TrackVideo` states each exit in terms of its outcome |
| ByteTracker.FrameObjectsFaithful | video_tracking_demo/tracking/byte_tracker.py:100-125 | a frame's object count is the shortest array's length, each object's category is `_map_binary` of `_get_class_name` of its class, and its id, confidence and `int()`-truncated box are those of the same zipped tuple |
| ByteTracker.AggregateFrames | video_tracking_demo/tracking/byte_tracker.py:95-127 | the frame counter ends at the number of frames, and the results hold one entry per frame, numbered from 1, with that frame's objects |
| ByteTracker.TrackVideo | video_tracking_demo/tracking/byte_tracker.py:66-136 | success exactly when results are produced. An unopenable input fails with its path in the report. A writer that cannot be built fails through the exception handler. No opening writer fails with the codec message. Otherwise the report gives the frame count, codec and path, and the results number frames 1..N with no gaps |
| ByteTracker.CouldNotOpenNamesPath | video_tracking_demo/tracking/byte_tracker.py:71-72 | the failure message for an unopenable input contains the input path |
| ByteTracker.ReportText | video_tracking_demo/tracking/byte_tracker.py:72-136 | the message beside the success flag: the unopenable input path (line 72), the fixed codec failure (line 81), the frame count, codec and output path (line 134), and the fixed prefix of a caught exception (line 136) |
| ConvertToCoco.ClassMapDomain | labeller_sdk/convert_to_coco.py:9-12 | exactly the tokens '0' and '1' are classes, mapping to categories 1 and 2 |
| ConvertToCoco.CategoriesMatchClassMap | labeller_sdk/convert_to_coco.py:9-17 | the ids CLASS_MAP produces are exactly the ids listed in CATEGORIES; id 1 is named "vehicle" and the other "pedestrian" |
| ConvertToCoco.YoloToCocoBox | labeller_sdk/convert_to_coco.py:19-24 | width and height scale by the image size, and the corner plus half the size is the scaled centre |
| ConvertToCoco.YoloCocoRoundTrip | labeller_sdk/convert_to_coco.py:19-24 | for an image of positive size the conversion loses nothing: its inverse undoes it, in both directions |
| ConvertToCoco.KeptLineAnnotation | labeller_sdk/convert_to_coco.py:57-73 | a kept line has five tokens whose width and height parse. Its annotation has the given id and image id, the class's category, the rounded box and not crowd. The recorded area is `round(bbox[2] * bbox[3], 2)` of the unrounded box, whose width and height are the parsed numbers times the image width and height |
| ConvertToCoco.AreaNonNegative | labeller_sdk/convert_to_coco.py:71 | the unrounded area `w * h` of a box of non-negative size is non-negative |
| ConvertToCoco.Area | labeller_sdk/convert_to_coco.py:71 | `bbox[2] * bbox[3]`, the unrounded area of a box |
| ConvertToCoco.RoundBox | labeller_sdk/convert_to_coco.py:70 | `[round(coord, 2) for coord in bbox]`, with two-decimal rounding as the parameter `round2` |
| ConvertToCoco.ToAnnotation | labeller_sdk/convert_to_coco.py:66-73 | the annotation dictionary for a kept line: its id, image id and category, the rounded box, the rounded unrounded-box area, and `iscrowd` 0. `KeptLineAnnotation` states it for a parsed line |
| ConvertToCoco.ParseLabelLine | labeller_sdk/convert_to_coco.py:57-64 | a kept line's category is 1 or 2 |
| ConvertToCoco.ParseLabelLineCases | labeller_sdk/convert_to_coco.py:57-69 | a line is skipped exactly when it lacks five tokens or its class is unknown. It is rejected only when a number fails to parse, naming the first token that fails, since `float()` is applied left to right. It is kept exactly when all four parse, with the class's category and the converted box |
| ConvertToCoco.ReadLabelFile | labeller_sdk/convert_to_coco.py:55-74 | the inner loop returns the kept lines' annotations numbered from the next id, or the error of the first number that does not parse |
| ConvertToCoco.LabelFileName | labeller_sdk/convert_to_coco.py:36 | `os.path.splitext(filename)[0] + '.txt'`, the label file read for an image |
| ConvertToCoco.ImageFiles | labeller_sdk/convert_to_coco.py:32-34 | the listing's `.jpg` files in listing order, never more than the listing. `ImageFilesMembers` states which files they are |
| ConvertToCoco.IsImageFile | labeller_sdk/convert_to_coco.py:33 | `filename.endswith('.jpg')`. `ImageFilesMembers` states that the images are exactly the listing's entries that pass it |
| ConvertToCoco.ImageFilesAppend | labeller_sdk/convert_to_coco.py:32-34 | the images keep the listing order: the images of a concatenated listing are those of the first part followed by those of the second |
| ConvertToCoco.LineBodies | labeller_sdk/convert_to_coco.py:55-73 | the reference for one label file: the kept lines' annotations in line order, or the error of the first line whose numbers do not parse. `ReadLabelFile` is proved equal to it |
| ConvertToCoco.AllBodies | labeller_sdk/convert_to_coco.py:32-76 | the reference for all images: image `k` read with id `k + 1`, their annotations concatenated in order, or the first error. `AllBodiesLast` and `AllBodiesWellFormed` state its properties |
| ConvertToCoco.MissingLabels | labeller_sdk/convert_to_coco.py:50-53 | the images, in order, whose label file does not exist. `MissingLabelsMembers` states which they are |
| ConvertToCoco.ImageLines | labeller_sdk/convert_to_coco.py:50-56 | the lines of an image's label file, or none when the file does not exist. `AllBodiesLast` states that an added image contributes exactly the annotations of these lines |
| ConvertToCoco.Convert | labeller_sdk/convert_to_coco.py:26-82 | fails exactly when some label number does not parse, with that error. Otherwise the images are the listing's `.jpg` files numbered from 1, and the annotations are all kept lines numbered from 1. The categories are CATEGORIES, and the warnings name exactly the images without a label file |
| ConvertToCoco.ImageFilesMembers | labeller_sdk/convert_to_coco.py:32-34 | a file becomes an image exactly when it is in the listing and ends with ".jpg" |
| ConvertToCoco.MissingLabelsMembers | labeller_sdk/convert_to_coco.py:50-53 | a warning is given exactly for the images whose label file does not exist |
| ConvertToCoco.ImageEntries | labeller_sdk/convert_to_coco.py:42-47 | image entry `k` has id `k + 1` and the `k`-th image's file name |
| ConvertToCoco.Numbered | labeller_sdk/convert_to_coco.py:66-74 | annotation `k` has id `first + k` and is never crowd |
| ConvertToCoco.LineBodiesBelong | labeller_sdk/convert_to_coco.py:66-69 | every annotation read from a label file carries that file's image id and a category of CATEGORIES |
| ConvertToCoco.AllBodiesLast | labeller_sdk/convert_to_coco.py:55-76 | the annotations of a run are those of all earlier images, followed by the last image's label file read with that image's id |
| ConvertToCoco.AllBodiesWellFormed | labeller_sdk/convert_to_coco.py:50-76 | the annotations point at existing image ids, in non-decreasing order, with categories of CATEGORIES |
| ConvertToCoco.NumberedWellFormed | labeller_sdk/convert_to_coco.py:66-74 | numbering well-formed annotations from 1 gives ids 1..m, never crowd, with image ids and categories kept |
| ConvertToCoco.ConvertImagesAreJpgs | labeller_sdk/convert_to_coco.py:32-47 | every image entry is a `.jpg` file of the listing, and entry `k` has id `k + 1` |
| ConvertToCoco.ConvertAnnotationsWellFormed | labeller_sdk/convert_to_coco.py:26-82 | a successful conversion's annotations have ids 1..m and are never crowd. They point at existing images in image order, with categories 1 or 2 |
| RunInferenceLabel.PairCount | inference/run_inference_label.py:18 | the boxes and classes are paired up to the shorter array's length |
| RunInferenceLabel.KeptLines | inference/run_inference_label.py:18-22 | at most one line per pair, and every line's class is 0 or 1 |
| RunInferenceLabel.Candidate | inference/run_inference_label.py:18 | the `k`-th pair of the zip: the class truncated by `astype(int)`, and the normalised box. `KeptLinesMembers` states which candidates are written |
| RunInferenceLabel.LabelLines | inference/run_inference_label.py:17-22 | the lines of one result's label file: the accepted pairs of the whole zip, in order. `LabelLinesAppend` and `LabelRoundTrip.SavedFileReadBack` state its properties |
| RunInferenceLabel.LineText | inference/run_inference_label.py:21 | one written line: the class, a space, the four formatted numbers joined by spaces, and a newline. `LineReadBack` states that `convert` reads it back |
| RunInferenceLabel.LabelFileName | inference/run_inference_label.py:13-14 | `os.path.splitext(os.path.basename(img_path))[0] + '.txt'` |
| RunInferenceLabel.LabelPath | inference/run_inference_label.py:13-15 | `os.path.join(save_dir, txt_file_name)`. `LabelPathNaming` states its basename |
| RunInferenceLabel.SavedFiles | inference/run_inference_label.py:11-22 | the label directory after the results are written in order, each file truncated and rewritten. `SavedFilesDomain`, `SavedFilesContents` and `SavedFilesUntouched` state its properties |
| RunInferenceLabel.SaveYoloLabels | inference/run_inference_label.py:5-23 | the nested loops write each result's file with its accepted lines, later results overwriting earlier files at the same path, and report one path per result |
| RunInferenceLabel.SavedPaths | inference/run_inference_label.py:11-23 | exactly one reported path per result |
| RunInferenceLabel.SavedPathsAt | inference/run_inference_label.py:11-23 | the path reported for each result is the label path built from that result's image path |
| RunInferenceLabel.KeptLinesMembers | inference/run_inference_label.py:18-20 | a line is written exactly when some pair yields it and its class is accepted |
| RunInferenceLabel.KeptLinesAllAccepted | inference/run_inference_label.py:18-22 | when every class is accepted, every pair is written, in order |
| RunInferenceLabel.KeptLinesAgree | inference/run_inference_label.py:18-22 | the lines depend only on the paired boxes and classes |
| RunInferenceLabel.KeptLinesAppend | inference/run_inference_label.py:18-22 | the lines keep the detector's order: two runs of detections give the first's lines followed by the second's |
| RunInferenceLabel.LabelLinesAppend | inference/run_inference_label.py:18-22 | the same for whole detection lists |
| RunInferenceLabel.LabelPathNaming | inference/run_inference_label.py:13-15 | the label file's basename is the image basename with its extension replaced by ".txt" |
| RunInferenceLabel.SavedFilesDomain | inference/run_inference_label.py:11-17 | after saving, a file exists exactly when it existed before or is a result's label path |
| RunInferenceLabel.SavedFilesContents | inference/run_inference_label.py:11-22 | a result's label file holds that result's accepted lines unless a later result writes the same path |
| RunInferenceLabel.SavedFilesUntouched | inference/run_inference_label.py:11-17 | a file that no result writes keeps its contents |
| LabelRoundTrip.ClassTokens | inference/run_inference_label.py:21 | the class of a written line prints as a single token that CLASS_MAP maps to the class plus one |
| LabelRoundTrip.LineReadBack | inference/run_inference_label.py:21 | a written line is kept when read back, with category class + 1 and the box read from the formatted numbers |
| LabelRoundTrip.FileReadBack | inference/run_inference_label.py:17-22 | a whole written file is read back with every line kept, in order |
| LabelRoundTrip.SavedFileReadBack | inference/run_inference_label.py:17-22 | the file written for a result reads back as one annotation per accepted detection, in detector order |
| PyNum.Trunc | video_tracking_demo/tracking/byte_tracker.py:102-107 | `int()` and `astype(int)` round toward zero, on both sides of zero |
| PyNum.Min | video_tracking_demo/tracking/byte_tracker.py:106 | the length `zip` stops at is at most each length and equal to one of them |
| PyText.Strip | video_tracking_demo/tracking/byte_tracker.py:61 | `strip()` keeps a contiguous slice that neither starts nor ends with whitespace, with only whitespace before and after it |
| PyText.Lower | video_tracking_demo/tracking/byte_tracker.py:61 | `lower()` keeps the length and lowers each character in place |
| PyText.ContainsIffOccurs | video_tracking_demo/tracking/byte_tracker.py:62 | `tok in n` holds exactly when `tok` occurs at some index of `n` |
| PyText.Contains | video_tracking_demo/tracking/byte_tracker.py:62 | `tok in n` for strings, as a scan over the start positions. `ContainsIffOccurs` states what it means |
| PyText.IsSpace | labeller_sdk/convert_to_coco.py:57 | the characters for which `str.isspace()` holds, on which `strip()` and `split()` with no argument break. `Strip` and `Split` state their results in its terms |
| PyText.Split | labeller_sdk/convert_to_coco.py:57 | `split()` yields non-empty tokens without whitespace |
| PyText.SplitJoin | labeller_sdk/convert_to_coco.py:57 | splitting tokens joined by single spaces gives the tokens back |
| PyText.Join | inference/run_inference_label.py:21 | `" ".join(parts)`. `SplitJoin` states that `split()` undoes it |
| PyText.StripJoinNewline | labeller_sdk/convert_to_coco.py:57 | stripping joined tokens followed by a newline gives the joined tokens |
| PyText.IntToStringRoundTrip | video_tracking_demo/tracking/byte_tracker.py:49-50 | `str(int)` can be read back to the same integer |
| PyText.IntToStringInjective | video_tracking_demo/tracking/byte_tracker.py:49-50 | distinct integers print differently |
| PyText.IntToString | video_tracking_demo/tracking/byte_tracker.py:50-52 | `str(i)` of an integer: never empty. `IntToStringRoundTrip` and `IntToStringInjective` state that it can be read back |
| PyPath.Basename | inference/run_inference_label.py:13 | the basename is a suffix of the path without '/', and it is the longest one: it starts at the start of the path or right after a '/' |
| PyPath.SplitExt | inference/run_inference_label.py:14 | root and extension concatenate back to the name, and the extension is empty or a '.' followed by no further '.' or '/' |
| PyPath.SplitExtExtension | inference/run_inference_label.py:14 | the extension is non-empty exactly when the last path component has a '.' after some character other than '.' |
| PyPath.SplitExtOfName | inference/run_inference_label.py:14 | a stem that is not all dots, followed by an extension, splits back into that stem and extension |
| PyPath.PathJoinBasename | inference/run_inference_label.py:15 | joining a directory and a plain file name gives a path whose basename is the name |
| PyPath.PathJoin | inference/run_inference_label.py:15 | `os.path.join(dir, name)` on POSIX: an absolute name replaces the directory; otherwise one '/' goes between them unless the directory is empty or already ends with one |
| PyPath.PartsOfJoined | video_tracking_demo/tracking/byte_tracker.py:24 | pathlib parses components joined by '/' behind a root back into exactly those components |
| PyPath.RootOfJoined | video_tracking_demo/tracking/byte_tracker.py:24 | components joined behind a root keep that root |
| PyPath.RFind | inference/run_inference_label.py:13 | `rfind` of one character: -1 or an index holding it, with no later occurrence |
| PyPath.RootOf | video_tracking_demo/tracking/byte_tracker.py:24 | the root pathlib keeps in front of the components: none, "/" or exactly "//". `RootOfJoined` states that rebuilding keeps it |
| PyPath.Parts | video_tracking_demo/tracking/byte_tracker.py:24 | pathlib's components: the pieces between slashes, every one non-empty, without '/' and not ".". `PartsOfJoined` states that it undoes joining behind a root |
| PyPath.Suffix | video_tracking_demo/tracking/byte_tracker.py:24 | `PurePath.suffix` of a final component: a tail of the name, from a '.' that is neither its first nor its last character. `SuffixOfStemAndExtension` states that it gives back an extension put after a non-empty stem |
| PyPath.SuffixOfStemAndExtension | video_tracking_demo/tracking/byte_tracker.py:24 | a non-empty stem without '/' followed by an extension has that extension as its suffix |
| PyPath.StemNotEmpty | video_tracking_demo/tracking/byte_tracker.py:24 | the suffix of a non-empty name is never all of it |
| PyPath.WithSuffix | video_tracking_demo/tracking/byte_tracker.py:24 | `str(base_path.with_suffix(ext))`: no result where pathlib raises ValueError for a path without a final component. The `WithSuffix…` lemmas below state the result |
| PyPath.WithSuffixFails | video_tracking_demo/tracking/byte_tracker.py:24 | `with_suffix` fails exactly for a path without a final component |
| PyPath.WithSuffixKeepsPath | video_tracking_demo/tracking/byte_tracker.py:24 | otherwise the result keeps the root and every component but the last, and the last becomes its stem followed by `ext`. The text of the result is its normal form: the root, then the components joined by '/' |
| PyPath.WithSuffixRenames | video_tracking_demo/tracking/byte_tracker.py:24 | otherwise the result's basename is the last component's stem followed by `ext` |
| PyPath.WithSuffixSetsSuffix | video_tracking_demo/tracking/byte_tracker.py:24 | `with_suffix` fails exactly for a path without a final component. Otherwise its text is the normal form that keeps the root and every component but the last; the last keeps its stem and gets `ext`, which is then its suffix and the basename's suffix |

## Left out

- The YOLO detector and tracker are not modelled. Their frames and results are inputs, and track ids and class ids arrive as floats that are truncated.
- OpenCV is not modelled: opening the capture, the writer's `isOpened` (a predicate on the request), drawing boxes and labels, writing frames, and releasing.
- PIL's image-size read is a function of the file name.
- The file system is not modelled: `os.makedirs`, `open`, `os.path.exists` and the directory listing. The listing is a sequence in `os.listdir` order, and the label directory is a map from file name to lines. A label path that exists but cannot be read (a directory, say) is not modelled.
- `json.dump` and `print` are not modelled. The documents, warnings and saved paths are returned instead.
- Python's `float()` on label tokens is a partial-function parameter, and `f"{x:.6f}"` and `round(x, 2)` are function parameters. Floating point is modelled as exact `real` arithmetic, and NaN or infinite box values are not modelled.
- ConvertToCoco.Convert: the only failure modelled is the `ValueError` of `float()`. Errors from PIL, from opening files and from writing the JSON are not modelled.
- ByteTracker.TrackVideo: the caught-exception report keeps only its fixed prefix and not `str(e)`. The only exception modelled is the `ValueError` that `with_suffix` raises for a base path without a final component. Failures of the model, the capture, the tracker or the JSON write are outside the model.
- ByteTracker.GetClassName: table entries are the text `str()` gives for them, and an entry counts as false exactly when that text is empty. Non-string entries that are false in Python but print as non-empty text, such as `0` or `None`, are not distinguished.
- ByteTracker.SafeFps: what `float(val)` makes of the capture's value is an input (`NotNumeric`, `NotFinite` or a finite real), not a parse of a value.
- PyText.Lower: lowers ASCII letters only. No other character's Python lowercase form can complete a match of the four ASCII person tokens. A non-ASCII character that lowers to an ASCII letter ('K' KELVIN SIGN gives 'k', 'İ' gives 'i' plus a combining dot) either gives a letter absent from the tokens or is followed by a non-ASCII character.
- PyPath.WithSuffix: models pathlib's POSIX parsing of the final component and its root. It does not model `..` handling beyond keeping it as a component, and it does not model Windows paths.
- The `__main__` blocks, the fixed directory constants and the progress messages are not modelled.
