/**
 * The geometry of `crop_face`: choose the largest face the detector reports,
 * widen it by a fraction of its size on every side, and clamp the result to the
 * image. The detector, the image file and the written crop are outside the
 * model; the detector's candidates and the image's size are parameters.
 */
module FaceCrop {
  import opened Optional
  import opened PyStr

  /** A detector candidate `(x, y, w, h)`: its top-left corner, width and height in pixels. */
  datatype Box = Box(x: int, y: int, w: int, h: int)

  /** The crop `image[y1:y2, x1:x2]`. */
  datatype Rect = Rect(x1: int, y1: int, x2: int, y2: int)

  /** A decoded image: `image.shape[1]` is its width, `image.shape[0]` its height. */
  datatype Image = Image(width: int, height: int)

  function Area(b: Box): int {
    b.w * b.h
  }

  /** `sorted(faces, key=w*h, reverse=True)[0]`, as an index: a face of largest area,
      and, because the sort is stable, the first of several with that area. */
  function LargestIndex(faces: seq<Box>): (i: nat)
    requires |faces| > 0
    ensures i < |faces|
    ensures forall j :: 0 <= j < |faces| ==> Area(faces[j]) <= Area(faces[i])
    ensures forall j :: 0 <= j < i ==> Area(faces[j]) < Area(faces[i])
  {
    if |faces| == 1 then 0
    else
      var k := LargestIndex(faces[..|faces| - 1]);
      if Area(faces[|faces| - 1]) > Area(faces[k]) then |faces| - 1 else k
  }

  /** The two properties pin the choice down: any index holding a largest area with
      only smaller areas before it is the chosen one. */
  lemma LargestUnique(faces: seq<Box>, i: nat)
    requires i < |faces|
    requires forall j :: 0 <= j < |faces| ==> Area(faces[j]) <= Area(faces[i])
    requires forall j :: 0 <= j < i ==> Area(faces[j]) < Area(faces[i])
    ensures LargestIndex(faces) == i
  {
  }

  /** Python's `int(v)`: truncation toward zero. */
  function Trunc(v: real): (n: int)
    ensures v >= 0.0 ==> 0 <= n && n as real <= v < n as real + 1.0
    ensures v < 0.0 ==> n <= 0 && n as real - 1.0 < v <= n as real
  {
    if v >= 0.0 then v.Floor else -((-v).Floor)
  }

  /** `int(n * expand_ratio)`: how far one side moves. */
  function Expand(n: int, ratio: real): int {
    Trunc(n as real * ratio)
  }

  /** The crop for the chosen box, before it is cut out of the image. */
  function CropRect(image: Image, b: Box, ratio: real): (c: Rect)
    ensures 0 <= c.x1 && 0 <= c.y1 && c.x2 <= image.width && c.y2 <= image.height
  {
    var hExpand := Expand(b.h, ratio);
    var wExpand := Expand(b.w, ratio);
    Rect(Max(b.x - wExpand, 0), Max(b.y - hExpand, 0),
         Min(b.x + b.w + wExpand, image.width), Min(b.y + b.h + hExpand, image.height))
  }

  function Max(a: int, b: int): int { if a >= b then a else b }
  function Min(a: int, b: int): int { if a <= b then a else b }

  /** For a box inside the image and a non-negative ratio the crop contains the box. */
  lemma CropContainsBox(image: Image, b: Box, ratio: real)
    requires 0 <= b.x && 0 <= b.y && 0 <= b.w && 0 <= b.h
    requires b.x + b.w <= image.width && b.y + b.h <= image.height
    requires ratio >= 0.0
    ensures var c := CropRect(image, b, ratio);
            c.x1 <= b.x && c.y1 <= b.y && b.x + b.w <= c.x2 && b.y + b.h <= c.y2
  {
    NonNegativeExpand(b.w, ratio);
    NonNegativeExpand(b.h, ratio);
  }

  lemma NonNegativeExpand(n: int, ratio: real)
    requires n >= 0 && ratio >= 0.0
    ensures 0.0 <= Expand(n, ratio) as real <= n as real * ratio
  {
    assert n as real * ratio >= 0.0;
  }

  /** Where the widened box fits in the image, the crop is exactly the box moved out by
      the truncated amounts on each side; clamping changes nothing. */
  lemma CropUnclamped(image: Image, b: Box, ratio: real)
    requires b.x - Expand(b.w, ratio) >= 0 && b.y - Expand(b.h, ratio) >= 0
    requires b.x + b.w + Expand(b.w, ratio) <= image.width
    requires b.y + b.h + Expand(b.h, ratio) <= image.height
    ensures CropRect(image, b, ratio) ==
              Rect(b.x - Expand(b.w, ratio), b.y - Expand(b.h, ratio),
                   b.x + b.w + Expand(b.w, ratio), b.y + b.h + Expand(b.h, ratio))
  {
  }

  /** With the service's ratio of 0.3 each side of a 100-pixel face moves 30 pixels. */
  lemma ThirtyPercent()
    ensures Expand(100, 3.0 / 10.0) == 30
    ensures Expand(81, 3.0 / 10.0) == 24
  {
    assert 100 as real * (3.0 / 10.0) == 30.0;
    assert 81 as real * (3.0 / 10.0) == 24.3;
  }

  /** Why a crop fails, in the exception the source raises. */
  datatype CropError =
    | FileNotFound(message: string)    // `FileNotFoundError`
    | Unreadable                       // `cv2.imread` gave `None`; `cvtColor` raises
    | NoFace(message: string)          // `ValueError`

  datatype CropOutcome = Cropped(path: string, rect: Rect) | Failed(error: CropError)

  /** `crop_face(image_path, output_path, expand_ratio)`: `fileExists` is
      `os.path.exists(image_path)`, `image` the decoded image and `faces` the
      detector's candidates. */
  function CropFace(imagePath: string, fileExists: bool, image: Option<Image>, faces: seq<Box>,
                    outputPath: string, ratio: real): (r: CropOutcome)
    ensures r.Cropped? <==> fileExists && image.Some? && faces != []
    ensures r.Cropped? ==> r.path == outputPath
  {
    if !fileExists then Failed(FileNotFound("Image not found: " + imagePath))
    else if image.None? then Failed(Unreadable)
    else if |faces| == 0 then Failed(NoFace("No face detected in the image."))
    else Cropped(outputPath, CropRect(image.value, faces[LargestIndex(faces)], ratio))
  }

  /** The checks come in order: a missing file is reported whatever the detector would
      find, and a readable image with no candidates is the "no face" error. A success
      crops the largest face inside the image bounds. */
  lemma CropFaceOutcomes(imagePath: string, fileExists: bool, image: Option<Image>, faces: seq<Box>,
                         outputPath: string, ratio: real)
    ensures !fileExists ==>
              CropFace(imagePath, fileExists, image, faces, outputPath, ratio) == Failed(FileNotFound("Image not found: " + imagePath))
    ensures fileExists && image.Some? && faces == [] ==>
              CropFace(imagePath, fileExists, image, faces, outputPath, ratio).error.NoFace?
    ensures var r := CropFace(imagePath, fileExists, image, faces, outputPath, ratio);
            r.Cropped? ==> var i := LargestIndex(faces);
                           r.rect == CropRect(image.value, faces[i], ratio)
                           && (forall j :: 0 <= j < |faces| ==> Area(faces[j]) <= Area(faces[i]))
                           && 0 <= r.rect.x1 && r.rect.x2 <= image.value.width
                           && 0 <= r.rect.y1 && r.rect.y2 <= image.value.height
  {
  }

  /** The status and detail the upload endpoint answers with for a failed crop. */
  function HttpFailure(e: CropError, unreadableDetail: string): (status: (int, string))
    ensures status.0 == 400 <==> e.NoFace?
    ensures e.NoFace? ==> status == (400, "face is not visible please try again")
    ensures !e.NoFace? ==> status.0 == 500 && StartsWith(status.1, FailurePrefix)
  {
    match e
    case NoFace(_) => (400, "face is not visible please try again")
    case FileNotFound(m) =>
      assert (FailurePrefix + m)[..|FailurePrefix|] == FailurePrefix;
      (500, FailurePrefix + m)
    case Unreadable =>
      assert (FailurePrefix + unreadableDetail)[..|FailurePrefix|] == FailurePrefix;
      (500, FailurePrefix + unreadableDetail)
  }

  /** The start of every detail the endpoint gives for a crop that failed otherwise than
      for want of a face. */
  const FailurePrefix := "Cropping failed: "
}
