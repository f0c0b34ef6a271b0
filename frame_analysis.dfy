/** The per-frame bookkeeping of the main screen's analyser: only one camera
    frame in five is analysed, each detected face becomes a mirrored overlay
    box labelled by the smile probabilities, and the status line reflects the
    last face. Face detection, bitmaps and the smile network are outside this
    model: their results come in as parameters. */
module FrameAnalysis {
  import opened Results

  // ---------------------------------------------------------------------------
  // Frame sampling

  /** The modulus of the frame counter: one frame in this many is analysed. */
  const SAMPLE_PERIOD: int := 5

  /** The counter after one more frame. */
  function Next(frameCount: int): int {
    (frameCount + 1) % SAMPLE_PERIOD
  }

  /** Whether the frame that moves the counter on from `frameCount` is analysed. */
  predicate AnalysesNext(frameCount: int) {
    Next(frameCount) == 0
  }

  /** The counter after `n` more frames. */
  function After(frameCount: int, n: nat): int
    decreases n
  {
    if n == 0 then frameCount else After(Next(frameCount), n - 1)
  }

  /** How many of the next `n` frames are analysed. */
  function AnalysedCount(frameCount: int, n: nat): nat
    decreases n
  {
    if n == 0 then 0
    else (if AnalysesNext(frameCount) then 1 else 0) + AnalysedCount(Next(frameCount), n - 1)
  }

  /** Where the analyser keeps its counter. */
  class MainActivity {
    var frameCount: int

    ghost predicate Valid()
      reads this
    {
      0 <= frameCount < SAMPLE_PERIOD
    }

    constructor ()
      ensures Valid() && frameCount == 0
    {
      frameCount := 0;
    }

    /** The start of the analyser callback: `analyse` is false when the frame
        is closed straight away. */
    method OnFrame() returns (analyse: bool)
      requires Valid()
      modifies this
      ensures Valid()
      ensures frameCount == Next(old(frameCount))
      ensures analyse <==> AnalysesNext(old(frameCount))
    {
      frameCount := (frameCount + 1) % SAMPLE_PERIOD;
      analyse := frameCount == 0;
    }
  }

  /** The counter never leaves `[0, 5)`. */
  lemma {:induction false} CounterInRange(frameCount: int, n: nat)
    requires 0 <= frameCount < SAMPLE_PERIOD
    ensures 0 <= After(frameCount, n) < SAMPLE_PERIOD
    decreases n
  {
    if n > 0 {
      CounterInRange(Next(frameCount), n - 1);
    }
  }

  /** From any counter value, exactly one of the next five frames is
      analysed, and the counter comes back to where it was. */
  lemma OneInFive(frameCount: int)
    requires 0 <= frameCount < SAMPLE_PERIOD
    ensures AnalysedCount(frameCount, 5) == 1
    ensures After(frameCount, 5) == frameCount
  {
    if frameCount == 0 {
      assert AnalysedCount(0, 5) == 1 && After(0, 5) == 0;
    } else if frameCount == 1 {
      assert AnalysedCount(1, 5) == 1 && After(1, 5) == 1;
    } else if frameCount == 2 {
      assert AnalysedCount(2, 5) == 1 && After(2, 5) == 2;
    } else if frameCount == 3 {
      assert AnalysedCount(3, 5) == 1 && After(3, 5) == 3;
    } else {
      assert AnalysedCount(4, 5) == 1 && After(4, 5) == 4;
    }
  }

  lemma {:induction false} CountSplit(frameCount: int, a: nat, b: nat)
    ensures AnalysedCount(frameCount, a + b) == AnalysedCount(frameCount, a) + AnalysedCount(After(frameCount, a), b)
    ensures After(frameCount, a + b) == After(After(frameCount, a), b)
    decreases a
  {
    if a > 0 {
      CountSplit(Next(frameCount), a - 1, b);
      assert a + b - 1 == (a - 1) + b;
    }
  }

  /** Over `5 * k` frames exactly `k` are analysed. */
  lemma {:induction false} OneInEveryFive(frameCount: int, k: nat)
    requires 0 <= frameCount < SAMPLE_PERIOD
    ensures AnalysedCount(frameCount, 5 * k) == k
  {
    if k > 0 {
      CountSplit(frameCount, 5, 5 * (k - 1));
      OneInFive(frameCount);
      OneInEveryFive(frameCount, k - 1);
    }
  }

  /** A fresh activity analyses its fifth frame first. */
  lemma FirstAnalysedFrame()
    ensures AnalysedCount(0, 4) == 0 && AnalysedCount(0, 5) == 1
  {
    OneInFive(0);
    assert After(0, 4) == 4;
    CountSplit(0, 4, 1);
  }

  // ---------------------------------------------------------------------------
  // Boxes on the overlay

  /** An OpenCV face rectangle, in bitmap pixels. */
  datatype Rect = Rect(x: int, y: int, width: int, height: int)

  /** An overlay rectangle, in view coordinates. */
  datatype RectF = RectF(left: real, top: real, right: real, bottom: real)

  /** The face rectangle scaled to the preview view. */
  function ToOverlay(r: Rect, scaleX: real, scaleY: real): RectF {
    RectF(r.x as real * scaleX, r.y as real * scaleY,
          (r.x + r.width) as real * scaleX, (r.y + r.height) as real * scaleY)
  }

  /** The horizontal mirror image in a view `viewWidth` wide (front camera). */
  function Mirror(b: RectF, viewWidth: real): RectF {
    RectF(viewWidth - b.right, b.top, viewWidth - b.left, b.bottom)
  }

  /** Mirroring keeps the vertical extent and the width, and mirroring twice
      gives the original box back. */
  lemma MirrorProperties(b: RectF, viewWidth: real)
    ensures var m := Mirror(b, viewWidth);
      && m.top == b.top && m.bottom == b.bottom
      && m.right - m.left == b.right - b.left
      && Mirror(m, viewWidth) == b
  {
  }

  /** A box inside the view stays inside it after mirroring. */
  lemma MirrorStaysInView(b: RectF, viewWidth: real)
    requires 0.0 <= b.left <= b.right <= viewWidth
    ensures var m := Mirror(b, viewWidth);
      0.0 <= m.left <= m.right <= viewWidth
  {
  }

  // ---------------------------------------------------------------------------
  // Crops

  /** The arguments given to `Bitmap.createBitmap` for a face: the origin
      clamped to 0, the size cut at the bitmap's far edges. */
  function CropOf(r: Rect, bitmapWidth: int, bitmapHeight: int): (c: Rect)
    ensures c.x >= 0 && c.y >= 0
    ensures r.x < 0 ==> c.x == 0
    ensures r.y < 0 ==> c.y == 0
    ensures c.width <= r.width && c.height <= r.height
    ensures r.x >= 0 ==> c.x == r.x && c.x + c.width <= bitmapWidth
    ensures r.y >= 0 ==> c.y == r.y && c.y + c.height <= bitmapHeight
  {
    Rect(if r.x < 0 then 0 else r.x,
         if r.y < 0 then 0 else r.y,
         if r.width > bitmapWidth - r.x then bitmapWidth - r.x else r.width,
         if r.height > bitmapHeight - r.y then bitmapHeight - r.y else r.height)
  }

  /** What `Bitmap.createBitmap(source, x, y, width, height)` accepts. */
  predicate CropAccepted(c: Rect, bitmapWidth: int, bitmapHeight: int) {
    && c.x >= 0 && c.y >= 0 && c.width > 0 && c.height > 0
    && c.x + c.width <= bitmapWidth && c.y + c.height <= bitmapHeight
  }

  /** A non-empty rectangle lying inside the bitmap. */
  predicate Inside(r: Rect, bitmapWidth: int, bitmapHeight: int) {
    && r.x >= 0 && r.y >= 0 && r.width > 0 && r.height > 0
    && r.x + r.width <= bitmapWidth && r.y + r.height <= bitmapHeight
  }

  /** A face inside the bitmap, as the detector reports them, is cropped
      exactly and the crop is accepted. */
  lemma CropOfInside(r: Rect, bitmapWidth: int, bitmapHeight: int)
    requires Inside(r, bitmapWidth, bitmapHeight)
    ensures CropOf(r, bitmapWidth, bitmapHeight) == r
    ensures CropAccepted(CropOf(r, bitmapWidth, bitmapHeight), bitmapWidth, bitmapHeight)
  {
  }

  /** Clamping only the origin does not keep a crop inside the bitmap: a face
      overhanging the left edge is accepted only if it is no wider than the
      bitmap, because its width is cut against `bitmapWidth - x`, not against
      the clamped origin. */
  lemma CropPastLeftEdge(r: Rect, bitmapWidth: int, bitmapHeight: int)
    requires r.x < 0
    ensures var c := CropOf(r, bitmapWidth, bitmapHeight);
      c.x + c.width <= bitmapWidth <==> r.width <= bitmapWidth
  {
  }

  // ---------------------------------------------------------------------------
  // Labels and the status line

  /** `smiling = pYes > pNot`. */
  predicate Smiling(pNot: real, pYes: real) {
    pYes > pNot
  }

  /** The smile rule is strict: a tie is not a smile, and two different
      probabilities make exactly one of the two orders a smile. */
  lemma SmilingStrict(pNot: real, pYes: real)
    ensures Smiling(pNot, pNot) == false
    ensures Smiling(pNot, pYes) ==> !Smiling(pYes, pNot)
    ensures pNot != pYes ==> Smiling(pNot, pYes) || Smiling(pYes, pNot)
  {
  }

  function LabelText(smiling: bool): string {
    if smiling then "Smiling" else "Not Smiling"
  }

  /** One box of the overlay. */
  datatype Box = Box(rect: RectF, caption: string, smiling: bool)

  /** The status line: "Brak twarzy" (no face), or the label and `pYes` of a
      face (the two-decimal formatting is left out). */
  datatype Status = NoFace | FaceStatus(caption: string, pSmile: real)

  /** What the overlay and the status line receive. */
  datatype Frame = Frame(boxes: seq<Box>, status: Status)

  /** `createBitmap` threw for the face at this position; the frame ends
      without updating the screen. */
  datatype FrameError = CropRejected(index: nat)

  /** The scale and mirror geometry of the analyser. */
  datatype View = View(viewWidth: real, scaleX: real, scaleY: real, bitmapWidth: int, bitmapHeight: int)

  predicate AllCropsAccepted(faces: seq<Rect>, view: View) {
    forall i :: 0 <= i < |faces| ==> CropAccepted(CropOf(faces[i], view.bitmapWidth, view.bitmapHeight), view.bitmapWidth, view.bitmapHeight)
  }

  /** The loop over the detected faces. `probs[i]` is the pair `(pNot, pYes)`
      the smile network returns for the crop of `faces[i]`. */
  method AnalyseFaces(faces: seq<Rect>, probs: seq<(real, real)>, view: View) returns (r: Result<Frame, FrameError>)
    requires |probs| == |faces|
    ensures r.Ok? <==> AllCropsAccepted(faces, view)
    ensures r.Err? ==>
      && r.error.index < |faces|
      && !CropAccepted(CropOf(faces[r.error.index], view.bitmapWidth, view.bitmapHeight), view.bitmapWidth, view.bitmapHeight)
      && AllCropsAccepted(faces[..r.error.index], view)
    ensures r.Ok? ==> |r.value.boxes| == |faces|
    ensures r.Ok? ==> forall i :: 0 <= i < |faces| ==>
      && r.value.boxes[i].rect == Mirror(ToOverlay(faces[i], view.scaleX, view.scaleY), view.viewWidth)
      && (r.value.boxes[i].smiling <==> Smiling(probs[i].0, probs[i].1))
      && r.value.boxes[i].caption == LabelText(r.value.boxes[i].smiling)
    ensures r.Ok? && |faces| == 0 ==> r.value.status == NoFace
    ensures r.Ok? && |faces| > 0 ==>
      r.value.status == FaceStatus(r.value.boxes[|faces| - 1].caption, probs[|faces| - 1].1)
  {
    var boxes: seq<Box> := [];
    var status := NoFace;
    for i := 0 to |faces|
      invariant |boxes| == i
      invariant AllCropsAccepted(faces[..i], view)
      invariant forall j :: 0 <= j < i ==>
        && boxes[j].rect == Mirror(ToOverlay(faces[j], view.scaleX, view.scaleY), view.viewWidth)
        && (boxes[j].smiling <==> Smiling(probs[j].0, probs[j].1))
        && boxes[j].caption == LabelText(boxes[j].smiling)
      invariant i == 0 ==> status == NoFace
      invariant i > 0 ==> status == FaceStatus(boxes[i - 1].caption, probs[i - 1].1)
    {
      var face := faces[i];
      var rectOnOverlay := ToOverlay(face, view.scaleX, view.scaleY);
      rectOnOverlay := Mirror(rectOnOverlay, view.viewWidth);
      var crop := CropOf(face, view.bitmapWidth, view.bitmapHeight);
      if !CropAccepted(crop, view.bitmapWidth, view.bitmapHeight) {
        return Err(CropRejected(i));
      }
      var (pNot, pYes) := probs[i];
      var smiling := pYes > pNot;
      var caption := LabelText(smiling);
      status := FaceStatus(caption, pYes);
      boxes := boxes + [Box(rectOnOverlay, caption, smiling)];
      assert faces[..i + 1] == faces[..i] + [face];
    }
    assert faces[..|faces|] == faces;
    return Ok(Frame(boxes, status));
  }

  /** When every face lies inside the bitmap the frame always reaches the screen. */
  lemma FacesInsideReachScreen(faces: seq<Rect>, view: View)
    requires forall i :: 0 <= i < |faces| ==> Inside(faces[i], view.bitmapWidth, view.bitmapHeight)
    ensures AllCropsAccepted(faces, view)
  {
    forall i | 0 <= i < |faces|
      ensures CropAccepted(CropOf(faces[i], view.bitmapWidth, view.bitmapHeight), view.bitmapWidth, view.bitmapHeight)
    {
      CropOfInside(faces[i], view.bitmapWidth, view.bitmapHeight);
    }
  }
}
