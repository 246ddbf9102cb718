/**
 * The face detector: what it keeps of each face the analysis model finds
 * (a clamped crop of the image, the age and gender estimates), the rule
 * that matches a detected face against the gallery of known faces, and the
 * bookkeeping of the gallery itself (loading it from a directory of images
 * or from the database, and adding a face under a `cedula_timestamp.jpg`
 * file name).
 *
 * The analysis model is an oracle: for an image it yields the raw faces it
 * finds, or `None` when it raises.  The cosine similarity of two
 * embeddings is an abstract function `sim` over reals, so the rule built on
 * the scores is what is proved, not the floating-point arithmetic.
 */
module Faces {
  import opened Wrappers
  import opened Strings
  import opened Numbers

  // ---------------------------------------------------------------------
  // Images and boxes
  // ---------------------------------------------------------------------

  type Pixel = int

  /** An image as a numpy array: `height` rows of `width` pixels. */
  datatype Picture = Picture(height: nat, width: nat, rows: seq<seq<Pixel>>)

  predicate WellShaped(p: Picture) {
    |p.rows| == p.height && forall i :: 0 <= i < |p.rows| ==> |p.rows[i]| == p.width
  }

  /** `np.array([])`, the crop of an empty region. */
  const EmptyPicture := Picture(0, 0, [])

  /** A bounding box `[x1, y1, x2, y2]` as the model reports it. */
  datatype Box = Box(x1: real, y1: real, x2: real, y2: real)

  /** Pixel coordinates of a crop: columns `left..right`, rows `top..bottom`. */
  datatype Region = Region(left: int, top: int, right: int, bottom: int)

  /** The box truncated to integers and clamped into a `width` by `height` image. */
  function Clamp(box: Box, width: nat, height: nat): (c: Region)
    ensures 0 <= c.left && 0 <= c.top && c.right <= width && c.bottom <= height
  {
    Region(Max(0, Trunc(box.x1)), Max(0, Trunc(box.y1)), Min(width, Trunc(box.x2)), Min(height, Trunc(box.y2)))
  }

  predicate IsEmptyRegion(c: Region) {
    c.left >= c.right || c.top >= c.bottom
  }

  /** Rows `top..bottom` of `img`, each cut to columns `left..right`. */
  function CropRows(img: Picture, c: Region): (rows: seq<seq<Pixel>>)
    requires WellShaped(img)
    requires 0 <= c.left <= c.right <= img.width && 0 <= c.top <= c.bottom <= img.height
    ensures |rows| == c.bottom - c.top
    ensures forall i :: 0 <= i < |rows| ==> rows[i] == img.rows[c.top + i][c.left..c.right]
  {
    seq(c.bottom - c.top, i requires 0 <= i < c.bottom - c.top => img.rows[c.top + i][c.left..c.right])
  }

  /**
   * `_extract_face_image`: the part of `img` inside the clamped box, copied;
   * the empty array when the clamped box has no area.
   */
  function ExtractFaceImage(img: Picture, box: Box): (crop: Picture)
    requires WellShaped(img)
    ensures WellShaped(crop)
    ensures IsEmptyRegion(Clamp(box, img.width, img.height)) <==> crop == EmptyPicture
    ensures var c := Clamp(box, img.width, img.height);
      !IsEmptyRegion(c) ==>
        && crop.height == c.bottom - c.top > 0 && crop.width == c.right - c.left > 0
        && forall i, j :: 0 <= i < crop.height && 0 <= j < crop.width ==>
             crop.rows[i][j] == img.rows[c.top + i][c.left + j]
  {
    var c := Clamp(box, img.width, img.height);
    if IsEmptyRegion(c) then EmptyPicture
    else Picture(c.bottom - c.top, c.right - c.left, CropRows(img, c))
  }

  // ---------------------------------------------------------------------
  // Faces and the gallery
  // ---------------------------------------------------------------------

  /** The first index of a largest element: `np.argmax`. */
  function ArgMax(s: seq<real>): (k: nat)
    requires |s| > 0
    ensures k < |s|
    ensures forall i :: 0 <= i < |s| ==> s[i] <= s[k]
    ensures forall i :: 0 <= i < k ==> s[i] < s[k]
    decreases |s|
  {
    if |s| == 1 then 0
    else
      var k := ArgMax(s[..|s| - 1]);
      if s[|s| - 1] > s[k] then |s| - 1 else k
  }

  /** The first index of a largest element is unique: `ArgMax` is the only index with its two properties. */
  lemma ArgMaxIsFirstLargest(s: seq<real>, k: nat)
    requires k < |s|
    requires forall i :: 0 <= i < |s| ==> s[i] <= s[k]
    requires forall i :: 0 <= i < k ==> s[i] < s[k]
    ensures ArgMax(s) == k
  {
  }

  datatype Gender = Male | Female

  /** A face as the analysis model reports it; an absent attribute is `None`. */
  datatype RawFace = RawFace(
    bbox: Box, landmarks: seq<real>, detScore: real, embedding: seq<real>,
    age: Option<real>, sex: Option<seq<real>>)

  /** A detected face as `detect_faces` returns it. */
  datatype Face = Face(
    bbox: Box, landmarks: seq<real>, detScore: real, embedding: seq<real>,
    age: Option<int>, gender: Option<Gender>, faceImg: Picture)

  /** What the gallery knows of a person. */
  datatype Identity = Identity(
    name: string, lastname: string, age: int, cedula: string,
    birthDate: string, crime: string, caseNumber: string)

  datatype KnownFace = KnownFace(identity: Identity, embedding: seq<real>, imagePath: string)

  /** One entry of `recognize_faces`' result: the face, the matched identity if any, and the score. */
  datatype Recognition = Recognition(face: Face, known: Option<KnownFace>, score: real)

  /** `(face, None, 0.0)`. */
  function Unknown(f: Face): Recognition {
    Recognition(f, None, 0.0)
  }

  /** The result that gives up on matching: every face unknown, in input order. */
  function Fallback(faces: seq<Face>): (r: seq<Recognition>)
    ensures |r| == |faces| && forall i :: 0 <= i < |faces| ==> r[i] == Unknown(faces[i])
  {
    seq(|faces|, i requires 0 <= i < |faces| => Unknown(faces[i]))
  }

  /** The gallery's embeddings stack into a matrix (`np.array` raises on ragged rows). */
  predicate Stackable(gallery: seq<KnownFace>) {
    forall i :: 0 <= i < |gallery| ==> |gallery[i].embedding| == |gallery[0].embedding|
  }

  function Dim(gallery: seq<KnownFace>): nat
    requires gallery != []
  {
    |gallery[0].embedding|
  }

  /** The similarity of the probe `e` to every gallery entry, in gallery order. */
  function ScoresOf(gallery: seq<KnownFace>, e: seq<real>, sim: (seq<real>, seq<real>) -> real): (s: seq<real>)
    ensures |s| == |gallery|
    ensures forall i :: 0 <= i < |gallery| ==> s[i] == sim(gallery[i].embedding, e)
  {
    seq(|gallery|, i requires 0 <= i < |gallery| => sim(gallery[i].embedding, e))
  }

  /**
   * One iteration of the matching loop over a non-empty gallery; `None`
   * where `np.dot` raises because the probe's length differs from the
   * gallery's.  A face without an embedding is unknown with score 0.
   */
  function MatchFace(gallery: seq<KnownFace>, threshold: real, sim: (seq<real>, seq<real>) -> real, f: Face): (r: Option<Recognition>)
    requires gallery != []
    ensures r.None? <==> |f.embedding| != 0 && |f.embedding| != Dim(gallery)
    ensures r.Some? ==> r.value.face == f
  {
    if |f.embedding| == 0 then Some(Unknown(f))
    else if |f.embedding| != Dim(gallery) then None
    else
      var s := ScoresOf(gallery, f.embedding, sim);
      var k := ArgMax(s);
      Some(Recognition(f, if s[k] > threshold then Some(gallery[k]) else None, s[k]))
  }

  /** The matching loop over `faces`; `None` as soon as one iteration raises. */
  function MatchAll(gallery: seq<KnownFace>, threshold: real, sim: (seq<real>, seq<real>) -> real, faces: seq<Face>): (r: Option<seq<Recognition>>)
    requires gallery != []
    ensures r.Some? <==> forall i :: 0 <= i < |faces| ==> MatchFace(gallery, threshold, sim, faces[i]).Some?
    ensures r.Some? ==> |r.value| == |faces|
    ensures r.Some? ==> forall i :: 0 <= i < |faces| ==> Some(r.value[i]) == MatchFace(gallery, threshold, sim, faces[i])
    decreases |faces|
  {
    if faces == [] then Some([])
    else
      var front := faces[..|faces| - 1];
      match MatchAll(gallery, threshold, sim, front)
      case None =>
        assert forall i :: 0 <= i < |front| ==> front[i] == faces[i];
        None
      case Some(r) =>
        match MatchFace(gallery, threshold, sim, faces[|faces| - 1])
        case None => None
        case Some(m) =>
          assert forall i :: 0 <= i < |front| ==> front[i] == faces[i];
          Some(r + [m])
  }

  /**
   * `recognize_faces` over `gallery` with `threshold`: every face unknown
   * when the gallery is empty or the computation raises; otherwise one
   * match per face, in input order.
   */
  function Recognized(gallery: seq<KnownFace>, threshold: real, sim: (seq<real>, seq<real>) -> real, faces: seq<Face>): seq<Recognition> {
    if gallery == [] || !Stackable(gallery) then Fallback(faces)
    else MatchAll(gallery, threshold, sim, faces).GetOr(Fallback(faces))
  }

  /** The result has one entry per input face, in input order. */
  lemma RecognizedKeepsFaces(gallery: seq<KnownFace>, threshold: real, sim: (seq<real>, seq<real>) -> real, faces: seq<Face>)
    ensures var r := Recognized(gallery, threshold, sim, faces);
      |r| == |faces| && forall i :: 0 <= i < |faces| ==> r[i].face == faces[i]
  {
    var r := Recognized(gallery, threshold, sim, faces);
    if gallery != [] && Stackable(gallery) && MatchAll(gallery, threshold, sim, faces).Some? {
      forall i | 0 <= i < |faces|
        ensures r[i].face == faces[i]
      {
        assert Some(r[i]) == MatchFace(gallery, threshold, sim, faces[i]);
      }
    }
  }

  /** With an empty gallery every face is unknown with score 0. */
  lemma EmptyGalleryRecognizesNobody(threshold: real, sim: (seq<real>, seq<real>) -> real, faces: seq<Face>)
    ensures forall i :: 0 <= i < |faces| ==> Recognized([], threshold, sim, faces)[i] == Unknown(faces[i])
  {
  }

  /** A face without an embedding is unknown with score 0, whatever the gallery. */
  lemma NoEmbeddingIsUnknown(gallery: seq<KnownFace>, threshold: real, sim: (seq<real>, seq<real>) -> real, faces: seq<Face>, i: nat)
    requires i < |faces| && |faces[i].embedding| == 0
    ensures Recognized(gallery, threshold, sim, faces)[i] == Unknown(faces[i])
  {
    if gallery != [] && Stackable(gallery) && MatchAll(gallery, threshold, sim, faces).Some? {
      assert Some(Recognized(gallery, threshold, sim, faces)[i]) == MatchFace(gallery, threshold, sim, faces[i]);
    }
  }

  /** One face of the wrong length makes the whole call give up. */
  lemma MismatchGivesUp(gallery: seq<KnownFace>, threshold: real, sim: (seq<real>, seq<real>) -> real, faces: seq<Face>, j: nat)
    requires gallery != [] && j < |faces|
    requires |faces[j].embedding| != 0 && |faces[j].embedding| != Dim(gallery)
    ensures Recognized(gallery, threshold, sim, faces) == Fallback(faces)
  {
    assert MatchFace(gallery, threshold, sim, faces[j]).None?;
  }

  /** Every probe is either without an embedding or as long as the gallery's. */
  predicate Comparable(gallery: seq<KnownFace>, faces: seq<Face>)
    requires gallery != []
  {
    forall j :: 0 <= j < |faces| ==> |faces[j].embedding| == 0 || |faces[j].embedding| == Dim(gallery)
  }

  /**
   * The matching rule.  When nothing raises, a face with an embedding gets
   * the score of the first gallery entry with the largest similarity, and
   * is matched to that entry exactly when the score is strictly above the
   * threshold.
   */
  lemma MatchRule(gallery: seq<KnownFace>, threshold: real, sim: (seq<real>, seq<real>) -> real, faces: seq<Face>, i: nat)
    requires gallery != [] && Stackable(gallery) && Comparable(gallery, faces)
    requires i < |faces| && |faces[i].embedding| != 0
    ensures var s := ScoresOf(gallery, faces[i].embedding, sim);
      var k := ArgMax(s);
      var r := Recognized(gallery, threshold, sim, faces)[i];
      && r.score == s[k]
      && (r.known.Some? <==> s[k] > threshold)
      && (r.known.Some? ==> r.known.value == gallery[k])
  {
    assert MatchAll(gallery, threshold, sim, faces).Some?;
    assert Some(Recognized(gallery, threshold, sim, faces)[i]) == MatchFace(gallery, threshold, sim, faces[i]);
  }

  /** Raising the threshold never creates a match, and a match that survives it is the same one with the same score. */
  lemma HigherThresholdMatchesLess(gallery: seq<KnownFace>, t1: real, t2: real, sim: (seq<real>, seq<real>) -> real, faces: seq<Face>, i: nat)
    requires t1 <= t2 && i < |faces|
    ensures Recognized(gallery, t1, sim, faces)[i].score == Recognized(gallery, t2, sim, faces)[i].score
    ensures Recognized(gallery, t2, sim, faces)[i].known.Some? ==>
      Recognized(gallery, t1, sim, faces)[i].known == Recognized(gallery, t2, sim, faces)[i].known
  {
    if gallery != [] && Stackable(gallery) {
      var m1, m2 := MatchAll(gallery, t1, sim, faces), MatchAll(gallery, t2, sim, faces);
      assert m1.Some? <==> m2.Some? by {
        assert forall j :: 0 <= j < |faces| ==>
          (MatchFace(gallery, t1, sim, faces[j]).Some? <==> MatchFace(gallery, t2, sim, faces[j]).Some?);
      }
      if m1.Some? {
        assert Some(m1.value[i]) == MatchFace(gallery, t1, sim, faces[i]);
        assert Some(m2.value[i]) == MatchFace(gallery, t2, sim, faces[i]);
      }
    }
  }

  // ---------------------------------------------------------------------
  // File names
  // ---------------------------------------------------------------------

  /** The position of the dot that starts `name`'s suffix, as `pathlib` chooses it. */
  function SuffixDot(name: string): (r: Option<nat>)
    ensures r.Some? ==> 0 < r.value < |name| - 1 && name[r.value] == '.'
  {
    match LastIndexOf(name, '.')
    case Some(i) => if 0 < i < |name| - 1 then Some(i) else None
    case None => None
  }

  /** `Path(name).suffix`: from the last dot on, unless that dot is first or last. */
  function Suffix(name: string): string {
    match SuffixDot(name)
    case Some(i) => name[i..]
    case None => ""
  }

  /** `Path(name).stem`: the name without its suffix. */
  function Stem(name: string): string {
    match SuffixDot(name)
    case Some(i) => name[..i]
    case None => name
  }

  /** A name is its stem followed by its suffix. */
  lemma StemThenSuffix(name: string)
    ensures Stem(name) + Suffix(name) == name
  {
    match SuffixDot(name)
    case Some(i) => assert name[..i] + name[i..] == name;
    case None =>
  }

  /** `load_known_faces` considers only `.jpg`, `.jpeg` and `.png` files, in any letter case. */
  predicate IsImageFile(name: string) {
    ToLower(Suffix(name)) in {".jpg", ".jpeg", ".png"}
  }

  /** `parts = stem.rsplit('_', 1)`; the cedula is `parts[0]`, or the whole stem without an underscore. */
  function CedulaOf(stem: string): (c: string)
    ensures '_' !in stem ==> c == stem
    ensures '_' in stem ==> |c| < |stem| && stem[|c|] == '_' && c == stem[..|c|] && '_' !in stem[|c| + 1..]
  {
    match LastIndexOf(stem, '_')
    case Some(i) => stem[..i]
    case None => stem
  }

  /** The name `add_known_face` gives the saved image: `{cedula}_{timestamp}.jpg`. */
  function FaceFileName(cedula: string, timestamp: int): string {
    cedula + "_" + IntToString(timestamp) + ".jpg"
  }

  /** `str(Path(dir) / name)`. */
  function JoinPath(dir: string, name: string): string {
    dir + "/" + name
  }

  /** The digits of the timestamp hold no dot, so the stem of a saved face's file name ends before `.jpg`. */
  lemma FaceFileNameSplits(cedula: string, timestamp: int)
    ensures SuffixDot(FaceFileName(cedula, timestamp)) == Some(|cedula| + 1 + |IntToString(timestamp)|)
  {
    var stem := cedula + "_" + IntToString(timestamp);
    var name := FaceFileName(cedula, timestamp);
    assert name == stem + "." + "jpg";
    assert |stem| == |cedula| + 1 + |IntToString(timestamp)|;
    JpgHasNoDot();
    SuffixDotOfExtension(stem, "jpg");
    assert SuffixDot(name) == Some(|stem|);
  }

  lemma JpgHasNoDot()
    ensures '.' !in "jpg" && |"jpg"| == 3
  {
  }

  /** A non-empty stem, a dot and a non-empty extension without dots: the dot starts the suffix. */
  lemma SuffixDotOfExtension(stem: string, ext: string)
    requires stem != [] && ext != [] && '.' !in ext
    ensures SuffixDot(stem + "." + ext) == Some(|stem|)
  {
    var name := stem + "." + ext;
    assert stem + "." == stem + ['.'];
    LastIndexOfEnd(stem, '.');
    LastIndexOfAppend(stem + ".", ext, '.');
    assert LastIndexOf(name, '.') == Some(|stem|);
  }

  /** The timestamp's digits hold no underscore, so the cedula is everything before the last one. */
  lemma CedulaOfSavedStem(cedula: string, timestamp: int)
    ensures CedulaOf(cedula + "_" + IntToString(timestamp)) == cedula
  {
    IntToStringAvoids(timestamp, '_');
    LastIndexOfAppend(cedula + "_", IntToString(timestamp), '_');
    assert (cedula + "_" + IntToString(timestamp))[..|cedula|] == cedula;
  }

  /**
   * The round trip: the file `add_known_face` writes is one that
   * `load_known_faces` reads, and the cedula parsed back from its stem is
   * the cedula it was saved under.
   */
  lemma FaceFileNameRoundTrip(cedula: string, timestamp: int)
    ensures Stem(FaceFileName(cedula, timestamp)) == cedula + "_" + IntToString(timestamp)
    ensures Suffix(FaceFileName(cedula, timestamp)) == ".jpg"
    ensures IsImageFile(FaceFileName(cedula, timestamp))
    ensures CedulaOf(Stem(FaceFileName(cedula, timestamp))) == cedula
  {
    var stem := cedula + "_" + IntToString(timestamp);
    var name := FaceFileName(cedula, timestamp);
    FaceFileNameSplits(cedula, timestamp);
    assert name[..|stem|] == stem;
    assert name[|stem|..] == ".jpg";
    assert ToLower(".jpg") == ".jpg";
    CedulaOfSavedStem(cedula, timestamp);
  }

  // ---------------------------------------------------------------------
  // Loading the gallery
  // ---------------------------------------------------------------------

  /** What reading one image file and analysing it gives. */
  datatype FileScan =
    | Unreadable                   // `cv2.imread` returns `None`
    | AnalysisRaised               // the model raises; the file is skipped
    | Scanned(found: seq<RawFace>)

  /** A directory entry matched by `glob('*.*')`. */
  datatype FaceFile = FaceFile(name: string, scan: FileScan)

  /**
   * The gallery entry `load_known_faces` makes of one file, if any: only an
   * image file in which the model finds a face, under the file's stem, with
   * the cedula parsed from the stem and the first face's embedding.
   */
  function LoadedFace(dir: string, file: FaceFile): (r: Option<KnownFace>)
    ensures r.Some? <==> IsImageFile(file.name) && file.scan.Scanned? && file.scan.found != []
    ensures r.Some? ==> r.value.identity.cedula == CedulaOf(Stem(file.name)) && r.value.imagePath == JoinPath(dir, file.name)
  {
    if !IsImageFile(file.name) then None
    else match file.scan
      case Scanned(found) =>
        if found == [] then None
        else
          var stem := Stem(file.name);
          Some(KnownFace(Identity(stem, "", 0, CedulaOf(stem), "", "", ""), found[0].embedding, JoinPath(dir, file.name)))
      case _ => None
  }

  function Listed<T>(o: Option<T>): seq<T> {
    if o.Some? then [o.value] else []
  }

  /** The gallery `load_known_faces` builds from the files of an existing directory, in listing order. */
  function LoadedFaces(dir: string, files: seq<FaceFile>): (r: seq<KnownFace>)
    ensures |r| <= |files|
    decreases |files|
  {
    if files == [] then []
    else LoadedFaces(dir, files[..|files| - 1]) + Listed(LoadedFace(dir, files[|files| - 1]))
  }

  /** Loading two listings one after the other is loading their concatenation. */
  lemma {:induction false} LoadedFacesAppend(dir: string, a: seq<FaceFile>, b: seq<FaceFile>)
    ensures LoadedFaces(dir, a + b) == LoadedFaces(dir, a) + LoadedFaces(dir, b)
    decreases |b|
  {
    if b == [] {
      assert a + b == a;
    } else {
      var front := b[..|b| - 1];
      assert (a + b)[..|a + b| - 1] == a + front;
      assert (a + b)[|a + b| - 1] == b[|b| - 1];
      LoadedFacesAppend(dir, a, front);
    }
  }

  /**
   * The image `add_known_face` saves in `dir` is loaded back from `dir`
   * with the cedula it was saved under and the path it was saved at.
   * (A cedula holding `/` names a file in a subdirectory, which
   * `glob('*.*')` does not list.)
   */
  lemma SavedFaceReloads(dir: string, cedula: string, timestamp: int, found: seq<RawFace>)
    requires found != []
    ensures var r := LoadedFace(dir, FaceFile(FaceFileName(cedula, timestamp), Scanned(found)));
      && r.Some?
      && r.value.identity.cedula == cedula
      && r.value.identity.name == cedula + "_" + IntToString(timestamp)
      && r.value.imagePath == JoinPath(dir, FaceFileName(cedula, timestamp))
      && r.value.embedding == found[0].embedding
  {
    FaceFileNameRoundTrip(cedula, timestamp);
  }

  /**
   * `np.frombuffer(bytes, dtype=np.float32)`: one value per four bytes,
   * decoded by `float32`; it raises (`None`) when the length is not a
   * multiple of four.
   */
  function FromBuffer(bytes: seq<Byte>, float32: seq<Byte> -> real): (r: Option<seq<real>>)
    ensures r.Some? <==> |bytes| % 4 == 0
    ensures r.Some? ==> |r.value| == |bytes| / 4
    ensures r.Some? ==> forall i :: 0 <= i < |r.value| ==> r.value[i] == float32(bytes[4 * i..4 * i + 4])
  {
    if |bytes| % 4 != 0 then None
    else Some(seq(|bytes| / 4, i requires 0 <= i < |bytes| / 4 => float32(bytes[4 * i..4 * i + 4])))
  }

  /** One record of `get_known_faces`. */
  datatype FaceRow = FaceRow(identity: Identity, embedding: seq<Byte>, imagePath: string)

  /** The gallery entry of a database record; records whose embedding does not decode are skipped. */
  function RowFace(row: FaceRow, float32: seq<Byte> -> real): Option<KnownFace> {
    match FromBuffer(row.embedding, float32)
    case Some(e) => Some(KnownFace(row.identity, e, row.imagePath))
    case None => None
  }

  /** The gallery `load_known_faces_from_db` builds from the records, in order. */
  function RowFaces(rows: seq<FaceRow>, float32: seq<Byte> -> real): (r: seq<KnownFace>)
    ensures |r| <= |rows|
    decreases |rows|
  {
    if rows == [] then []
    else RowFaces(rows[..|rows| - 1], float32) + Listed(RowFace(rows[|rows| - 1], float32))
  }

  /** When every stored embedding decodes, the gallery holds every record, in order, with its identity and path. */
  lemma {:induction false} RowFacesKeepsDecodable(rows: seq<FaceRow>, float32: seq<Byte> -> real)
    requires forall i :: 0 <= i < |rows| ==> |rows[i].embedding| % 4 == 0
    ensures |RowFaces(rows, float32)| == |rows|
    ensures forall i :: 0 <= i < |rows| ==>
      && RowFaces(rows, float32)[i].identity == rows[i].identity
      && RowFaces(rows, float32)[i].imagePath == rows[i].imagePath
      && Some(RowFaces(rows, float32)[i].embedding) == FromBuffer(rows[i].embedding, float32)
    decreases |rows|
  {
    if rows != [] {
      RowFacesKeepsDecodable(rows[..|rows| - 1], float32);
    }
  }

  // ---------------------------------------------------------------------
  // The detector
  // ---------------------------------------------------------------------

  /** `_get_gender`'s outcome: an estimate (possibly none), or the `np.argmax` of an empty score list, which raises. */
  datatype GenderEstimate = Estimated(gender: Option<Gender>) | ArgMaxOfEmpty

  class FaceDetector {
    const recognitionThreshold: real
    const analysisEnabled: bool
    var knownFaces: seq<KnownFace>

    /** `__init__` without the model: the threshold, the analysis flag (on unless configured off) and an empty gallery. */
    constructor (threshold: real, analysis: Option<bool>)
      ensures recognitionThreshold == threshold
      ensures analysisEnabled == (analysis.None? || analysis.value)
      ensures knownFaces == []
    {
      recognitionThreshold := threshold;
      analysisEnabled := analysis.GetOr(true);
      knownFaces := [];
    }

    /** `_get_age`: nothing with analysis off or no estimate; otherwise the estimate truncated to an integer. */
    function GetAge(face: RawFace): (r: Option<int>)
      ensures r.Some? <==> analysisEnabled && face.age.Some?
      ensures r.Some? ==> r.value == Trunc(face.age.value)
    {
      if !analysisEnabled || face.age.None? then None else Some(Trunc(face.age.value))
    }

    /**
     * `_get_gender`: nothing with analysis off or no `sex` scores;
     * otherwise `Female` exactly when the largest score comes first at
     * index 1.
     */
    function GetGender(face: RawFace): (r: GenderEstimate)
      ensures r.ArgMaxOfEmpty? <==> analysisEnabled && face.sex == Some([])
      ensures r.Estimated? && r.gender.Some? <==> analysisEnabled && face.sex.Some? && face.sex.value != []
      ensures r.Estimated? && r.gender == Some(Female) <==>
        analysisEnabled && face.sex.Some? && face.sex.value != [] && ArgMax(face.sex.value) == 1
    {
      if !analysisEnabled then Estimated(None)
      else match face.sex
        case None => Estimated(None)
        case Some(scores) =>
          if scores == [] then ArgMaxOfEmpty
          else Estimated(Some(if ArgMax(scores) == 1 then Female else Male))
    }

    /** The face `detect_faces` makes of one raw face of `img`. */
    function FaceOf(img: Picture, raw: RawFace): (f: Face)
      requires WellShaped(img) && !GetGender(raw).ArgMaxOfEmpty?
      ensures f.bbox == raw.bbox && f.embedding == raw.embedding && f.faceImg == ExtractFaceImage(img, raw.bbox)
      ensures f.age == GetAge(raw) && f.gender == GetGender(raw).gender
    {
      Face(raw.bbox, raw.landmarks, raw.detScore, raw.embedding, GetAge(raw), GetGender(raw).gender, ExtractFaceImage(img, raw.bbox))
    }

    /** What `detect_faces` returns: nothing when the model or any gender estimate raises, else one face per raw face. */
    function Detected(img: Picture, found: Option<seq<RawFace>>): (r: seq<Face>)
      requires WellShaped(img)
    {
      if found.None? || exists k :: 0 <= k < |found.value| && GetGender(found.value[k]).ArgMaxOfEmpty? then []
      else seq(|found.value|, i requires 0 <= i < |found.value| => FaceOf(img, found.value[i]))
    }

    /**
     * `detect_faces` on `img`, where `found` is what the model's `get`
     * returns (`None` when it raises).
     */
    method DetectFaces(img: Picture, found: Option<seq<RawFace>>) returns (faces: seq<Face>)
      requires WellShaped(img)
      ensures faces == Detected(img, found)
      ensures found.None? ==> faces == []
      ensures found.Some? && faces != [] ==>
        && |faces| == |found.value|
        && forall i :: 0 <= i < |faces| ==> faces[i] == FaceOf(img, found.value[i])
    {
      if found.None? {
        return [];
      }
      var raws := found.value;
      faces := [];
      var i := 0;
      while i < |raws|
        invariant 0 <= i <= |raws| && |faces| == i
        invariant forall k :: 0 <= k < i ==> !GetGender(raws[k]).ArgMaxOfEmpty? && faces[k] == FaceOf(img, raws[k])
      {
        if GetGender(raws[i]).ArgMaxOfEmpty? {
          return [];
        }
        faces := faces + [FaceOf(img, raws[i])];
        i := i + 1;
      }
    }

    /**
     * `recognize_faces` against the gallery, with `sim` for the cosine
     * similarity: the result is the one `Recognized` describes.
     */
    method RecognizeFaces(faces: seq<Face>, sim: (seq<real>, seq<real>) -> real) returns (results: seq<Recognition>)
      ensures results == Recognized(knownFaces, recognitionThreshold, sim, faces)
    {
      if knownFaces == [] || !Stackable(knownFaces) {
        return Fallback(faces);
      }
      results := [];
      var i := 0;
      while i < |faces|
        invariant 0 <= i <= |faces|
        invariant MatchAll(knownFaces, recognitionThreshold, sim, faces[..i]) == Some(results)
      {
        var face := faces[i];
        assert faces[..i + 1][..i] == faces[..i];
        if |face.embedding| == 0 {
          results := results + [Unknown(face)];
        } else if |face.embedding| != Dim(knownFaces) {
          return Fallback(faces);  // np.dot raises
        } else {
          var similarities := ScoresOf(knownFaces, face.embedding, sim);
          var maxIdx := ArgMax(similarities);
          if similarities[maxIdx] > recognitionThreshold {
            results := results + [Recognition(face, Some(knownFaces[maxIdx]), similarities[maxIdx])];
          } else {
            results := results + [Recognition(face, None, similarities[maxIdx])];
          }
        }
        i := i + 1;
      }
      assert faces[..i] == faces;
    }

    /**
     * `load_known_faces` on directory `dir`: the gallery is cleared, and
     * refilled from `files` when the directory exists.
     */
    method LoadKnownFaces(dir: string, dirExists: bool, files: seq<FaceFile>)
      modifies this`knownFaces
      ensures knownFaces == if dirExists then LoadedFaces(dir, files) else []
    {
      knownFaces := [];
      if !dirExists {
        return;
      }
      var i := 0;
      while i < |files|
        invariant 0 <= i <= |files|
        invariant knownFaces == LoadedFaces(dir, files[..i])
      {
        var file := files[i];
        assert LoadedFaces(dir, files[..i + 1]) == knownFaces + Listed(LoadedFace(dir, file)) by {
          assert files[..i + 1][..i] == files[..i];
        }
        if IsImageFile(file.name) && file.scan.Scanned? && file.scan.found != [] {
          var stem := Stem(file.name);
          var cedula := CedulaOf(stem);
          knownFaces := knownFaces + [KnownFace(Identity(stem, "", 0, cedula, "", "", ""), file.scan.found[0].embedding, JoinPath(dir, file.name))];
        }
        i := i + 1;
      }
      assert files[..i] == files;
    }

    /**
     * `load_known_faces_from_db`: the gallery is cleared, and refilled from
     * the records `get_known_faces` returns (`None` when it raises).
     */
    method LoadKnownFacesFromDb(rows: Option<seq<FaceRow>>, float32: seq<Byte> -> real)
      modifies this`knownFaces
      ensures knownFaces == if rows.Some? then RowFaces(rows.value, float32) else []
    {
      knownFaces := [];
      if rows.None? {
        return;
      }
      var records := rows.value;
      var i := 0;
      while i < |records|
        invariant 0 <= i <= |records|
        invariant knownFaces == RowFaces(records[..i], float32)
      {
        assert records[..i + 1][..i] == records[..i];
        var embedding := FromBuffer(records[i].embedding, float32);
        if embedding.Some? {
          knownFaces := knownFaces + [KnownFace(records[i].identity, embedding.value, records[i].imagePath)];
        }
        i := i + 1;
      }
      assert records[..i] == records;
    }

    /**
     * `add_known_face`.  `dirOk` says whether the save directory could be
     * made, `found` is what the model finds in `img`, `clock` is
     * `time.time()`, `writeOk` says whether `cv2.imwrite` returns without
     * raising (what it returns is ignored), and `dbInsert` is the database's
     * answer (`None` when no database is given).  The face is appended exactly when all of these
     * go through; otherwise the gallery is unchanged.
     */
    method AddKnownFace(img: Picture, who: Identity, saveDir: string, clock: real,
                        dirOk: bool, found: Option<seq<RawFace>>, writeOk: bool, dbInsert: Option<bool>)
      returns (ok: bool)
      requires WellShaped(img)
      modifies this`knownFaces
      ensures ok <==> dirOk && Detected(img, found) != [] && writeOk && dbInsert != Some(false)
      ensures ok ==> knownFaces == old(knownFaces) + [KnownFace(who, Detected(img, found)[0].embedding,
                                                               JoinPath(saveDir, FaceFileName(who.cedula, Trunc(clock))))]
      ensures !ok ==> knownFaces == old(knownFaces)
    {
      if !dirOk {
        return false;  // mkdir raises
      }
      var faces := DetectFaces(img, found);
      if faces == [] {
        return false;
      }
      var face := faces[0];
      var timestamp := Trunc(clock);
      var facePath := JoinPath(saveDir, FaceFileName(who.cedula, timestamp));
      if !writeOk {
        return false;  // cv2.imwrite raises
      }
      if dbInsert == Some(false) {
        return false;
      }
      knownFaces := knownFaces + [KnownFace(who, face.embedding, facePath)];
      return true;
    }
  }
}
