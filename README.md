# Smile counter core, modelled in Dafny

This is a Dafny model of the computational core of the "licznik uśmiechów"
(smile counter) Android app, with proofs about it. The app watches the
front camera, finds faces, decides whether each face is smiling and shows
effects when it is. The model covers six parts:

- **LipsFeatureExtractor** (`lips_features.dfy`): turns a list of lip landmarks
  into the five features `[mar, smileCurve, asym, spreadX, spreadY]`, plus the
  population standard deviation `std`.
- **SmileSvm** (`smile_svm.dfy`): the RBF-kernel SVM decision function over a
  trained `SvmModel`, `decisionScore`, the label rule `predictLabel`, and the
  sign rule `isSmiling`.
- **SmileEffects** (`smile_effects.dfy`): the trigger gate of the effects
  manager (`lastEffectTime`, `effectRunning`, the 2800 ms cooldown) and the
  `finishLater` callback.
- **Settings** (`settings.dfy`): the threshold slider. Integer progress
  `0..stepsCount` stands for a threshold in `[-2, 2]` in steps of `0.04`, with
  minus, plus and reset buttons that clamp.
- **YuvUtils** (`yuv.dfy`): `yuv420ToNv21` and `copyPlane`. These repack a
  strided YUV_420_888 image into one NV21 byte array: the Y plane row by row,
  then interleaved V/U pairs. Both the block-copy fast path and the general
  path are modelled.
- **FrameAnalysis** (`frame_analysis.dfy`): the per-frame bookkeeping of the
  main screen's analyser:
  - the `frameCount` sampling;
  - horizontal mirroring of the face boxes;
  - crop clamping;
  - the `pYes > pNot` decision;
  - the boxes and status line built in the loop over the faces.

Supporting modules:

- `results.dfy` holds `Result`, which models Kotlin's `require` failures and
  thrown exceptions.
- `math_fns.dfy` holds `Math`, which carries `exp`, `sqrt` and `hypot` as
  uninterpreted functions. Its `Valid()` states the only facts the proofs use:
  - `exp(x) > 0` and `exp(0) = 1`;
  - `sqrt(x) >= 0` and `sqrt(0) = 0`;
  - `hypot(a, b) >= 0`, `hypot(a, b) >= |a|` and `hypot(a, b) >= |b|`.

Float and double arithmetic is modelled over `real`. Kotlin `Int` and `Long`
are modelled as unbounded `int`. Bytes are `bv8`.

Facts about the code that shape the model:

- The comment at `MainActivity.kt:101` says every 3rd frame is analysed. The
  counter is taken modulo 5, so one frame in five is analysed
  (`FrameAnalysis.OneInFive`).
- `isSmiling` compares the score with a fixed `0.0`. No classifier code reads
  the threshold that the settings screen stores, so the model has no
  threshold gate.
- The effects gate in `onSmileDetected` checks three things only: no running
  effect, a laid-out layer, and the cooldown. The gate keeps no
  previous-frame state.
- The `1e-8` added to the width breaks exact scale invariance of the
  features. Only translation invariance is proved
  (`LipsFeatureExtractor.TranslationInvariant`).

## Model

| member | source | states |
|---|---|---|
| LipsFeatureExtractor.ArgMinX | app/src/main/java/com/example/licznikusmiechow/LipsFeatureExtractor.kt:38 | the index `minByOrNull { it.x }` picks is in range, its x is minimal among all points, and every earlier point has a strictly larger x (the first minimum wins ties) |
| LipsFeatureExtractor.ArgMaxX | app/src/main/java/com/example/licznikusmiechow/LipsFeatureExtractor.kt:39 | the index `maxByOrNull { it.x }` picks is in range, its x is maximal, and every earlier point has a strictly smaller x |
| LipsFeatureExtractor.ArgMinXUpTo | app/src/main/java/com/example/licznikusmiechow/LipsFeatureExtractor.kt:38 | the scan over the first `n` points keeps an index below `n` of minimal x, the first such |
| LipsFeatureExtractor.ArgMaxXUpTo | app/src/main/java/com/example/licznikusmiechow/LipsFeatureExtractor.kt:39 | the scan over the first `n` points keeps an index below `n` of maximal x, the first such |
| LipsFeatureExtractor.LeftNotRightOfRight | app/src/main/java/com/example/licznikusmiechow/LipsFeatureExtractor.kt:38-39 | `left.x <= right.x`, and every landmark's x lies between them |
| LipsFeatureExtractor.Width | app/src/main/java/com/example/licznikusmiechow/LipsFeatureExtractor.kt:41-44 | the width is at least `1e-8`, so positive for every input including a zero-width mouth, and at least the horizontal corner distance plus `1e-8` |
| LipsFeatureExtractor.Normalize | app/src/main/java/com/example/licznikusmiechow/LipsFeatureExtractor.kt:47-52 | `lipsN` has as many points as the input, and every normalised x lies between 0 and the normalised x of the right corner |
| LipsFeatureExtractor.NormalizedCorners | app/src/main/java/com/example/licznikusmiechow/LipsFeatureExtractor.kt:54-58 | the constant `leftN = (0, 0)` is the left corner's normalised position, and `rightN` is the right corner's entry in `lipsN` |
| LipsFeatureExtractor.RightNBounds | app/src/main/java/com/example/licznikusmiechow/LipsFeatureExtractor.kt:55-58 | the normalised mouth is less than one unit wide: `0 <= rightN.x < 1` |
| LipsFeatureExtractor.MaxOf | app/src/main/java/com/example/licznikusmiechow/LipsFeatureExtractor.kt:64 | `maxOrNull()` of a non-empty list bounds every element from above and is one of them |
| LipsFeatureExtractor.MinOf | app/src/main/java/com/example/licznikusmiechow/LipsFeatureExtractor.kt:64 | `minOrNull()` of a non-empty list bounds every element from below and is one of them |
| LipsFeatureExtractor.SumSqDev | app/src/main/java/com/example/licznikusmiechow/LipsFeatureExtractor.kt:20-24 | the accumulated squared deviations are never negative |
| LipsFeatureExtractor.PopulationStd | app/src/main/java/com/example/licznikusmiechow/LipsFeatureExtractor.kt:17-26 | the standard deviation is never negative, and it is 0 for the empty list |
| LipsFeatureExtractor.Std | app/src/main/java/com/example/licznikusmiechow/LipsFeatureExtractor.kt:17-26 | the loop that accumulates `acc` computes the population standard deviation, with 0 for the empty list |
| LipsFeatureExtractor.ComputeFeatures | app/src/main/java/com/example/licznikusmiechow/LipsFeatureExtractor.kt:34-71 | rejects exactly the empty list; otherwise yields exactly 5 values with `mar >= 0`, `spreadX >= 0`, `spreadY >= 0`, `asym = -rightN.y` and `smileCurve = rightN.y / 2 - meanY` |
| LipsFeatureExtractor.ArgMinTranslate | app/src/main/java/com/example/licznikusmiechow/LipsFeatureExtractor.kt:38 | shifting every point leaves the choice of the left corner unchanged, over every prefix |
| LipsFeatureExtractor.ArgMaxTranslate | app/src/main/java/com/example/licznikusmiechow/LipsFeatureExtractor.kt:39 | shifting every point leaves the choice of the right corner unchanged, over every prefix |
| LipsFeatureExtractor.CornersTranslate | app/src/main/java/com/example/licznikusmiechow/LipsFeatureExtractor.kt:38-39 | the corners of a shifted list are the shifted corners |
| LipsFeatureExtractor.WidthTranslate | app/src/main/java/com/example/licznikusmiechow/LipsFeatureExtractor.kt:41-44 | the width does not change under a shift |
| LipsFeatureExtractor.NormalizePointShift | app/src/main/java/com/example/licznikusmiechow/LipsFeatureExtractor.kt:48-51 | normalising a point against the left corner is unchanged when both are shifted by the same offset |
| LipsFeatureExtractor.NormalizeAllShift | app/src/main/java/com/example/licznikusmiechow/LipsFeatureExtractor.kt:47-52 | the normalised list is unchanged when the list and the origin are shifted together |
| LipsFeatureExtractor.NormalizeTranslate | app/src/main/java/com/example/licznikusmiechow/LipsFeatureExtractor.kt:47-52 | `lipsN` is unchanged by a shift of the input |
| LipsFeatureExtractor.RightNTranslate | app/src/main/java/com/example/licznikusmiechow/LipsFeatureExtractor.kt:55-58 | `rightN` is unchanged by a shift of the input |
| LipsFeatureExtractor.TranslationInvariant | app/src/main/java/com/example/licznikusmiechow/LipsFeatureExtractor.kt:41-70 | adding one offset to every landmark leaves the result (all five features, or the rejection) unchanged |
| LipsFeatureExtractor.ConstantStats | app/src/main/java/com/example/licznikusmiechow/LipsFeatureExtractor.kt:19-24 | a constant list sums to its length times the constant and has zero squared deviation around it |
| LipsFeatureExtractor.DegenerateNormalized | app/src/main/java/com/example/licznikusmiechow/LipsFeatureExtractor.kt:41-58 | when all landmarks coincide, every point of `lipsN` and `rightN` is the origin |
| LipsFeatureExtractor.OriginFeatures | app/src/main/java/com/example/licznikusmiechow/LipsFeatureExtractor.kt:60-70 | a normalised mouth collapsed to the origin gives five zero features |
| LipsFeatureExtractor.DegenerateMouth | app/src/main/java/com/example/licznikusmiechow/LipsFeatureExtractor.kt:41-70 | when all landmarks coincide nothing divides by zero, and all five features are 0 |
| SmileSvm.StandardizeInverse | app/src/main/java/com/example/licznikusmiechow/SmileSvmInterpreter.kt:69-71 | standardising is invertible: each feature is recovered as `mean[i] + x[i] * scale[i]`, and features equal to the mean standardise to all zeros |
| SmileSvm.Dist2 | app/src/main/java/com/example/licznikusmiechow/SmileSvmInterpreter.kt:77-81 | the squared distance is never negative |
| SmileSvm.DecisionScore | app/src/main/java/com/example/licznikusmiechow/SmileSvmInterpreter.kt:63-90 | fails exactly when the feature count differs from `mean.size`, reporting both sizes; otherwise the two nested loops compute the decision function `Σ dualCoef[i] * exp(-gamma * ‖x - sv_i‖²) + intercept` over the standardised `x` |
| SmileSvm.PredictLabel | app/src/main/java/com/example/licznikusmiechow/SmileSvmInterpreter.kt:92-99 | the label is the one the label rule gives for the decision value: a score of 0 or more gives `classes[1]`, a negative score `classes[0]`; it fails exactly when the feature count is wrong |
| SmileSvm.IsSmiling | app/src/main/java/com/example/licznikusmiechow/SmileSvmInterpreter.kt:101-107 | true exactly when the decision value is `>= 0.0`; a wrong feature count fails |
| SmileSvm.KernelPositive | app/src/main/java/com/example/licznikusmiechow/SmileSvmInterpreter.kt:82 | every RBF kernel value is positive |
| SmileSvm.KernelAtSupportVector | app/src/main/java/com/example/licznikusmiechow/SmileSvmInterpreter.kt:77-82 | a support vector equal to the input has kernel value 1 |
| SmileSvm.Dist2Self | app/src/main/java/com/example/licznikusmiechow/SmileSvmInterpreter.kt:77-81 | the squared distance from a vector to itself is 0 |
| SmileSvm.NoSupportVectors | app/src/main/java/com/example/licznikusmiechow/SmileSvmInterpreter.kt:74-85 | with no support vectors the score is the intercept |
| SmileSvm.NonNegativeCoefficients | app/src/main/java/com/example/licznikusmiechow/SmileSvmInterpreter.kt:74-84 | with every dual coefficient non-negative, the kernel sum is non-negative, so the score is at least the intercept |
| SmileSvm.SmilingAgreesWithLabel | app/src/main/java/com/example/licznikusmiechow/SmileSvmInterpreter.kt:96-104 | when the two class names differ, the sign rule of `isSmiling` and the label rule agree in both directions; a score of exactly 0 counts as a smile |
| SmileSvm.ExampleOriginSmiles | app/src/main/java/com/example/licznikusmiechow/SmileSvmInterpreter.kt:63-99 | a one-support-vector model at the origin (coefficient 1, intercept -0.5) scores the origin 0.5 and labels it `classes[1]` |
| SmileEffects.OnSmile | app/src/main/java/com/example/licznikusmiechow/SmileEffectsManager.kt:37-44 | when the gate fires (no effect running, a non-empty layer, at least 2800 ms since the last effect) the state becomes `(now, running)`; otherwise it is unchanged |
| SmileEffects.Finish | app/src/main/java/com/example/licznikusmiechow/SmileEffectsManager.kt:334-338 | the finish callback clears `effectRunning` and keeps `lastEffectTime` |
| SmileEffects.SmileEffectsManager.constructor | app/src/main/java/com/example/licznikusmiechow/SmileEffectsManager.kt:23-24 | a new manager starts at `lastEffectTime = 0`, not running |
| SmileEffects.SmileEffectsManager.OnSmileDetected | app/src/main/java/com/example/licznikusmiechow/SmileEffectsManager.kt:37-44 | the three early returns and the field updates: reports whether the gate fired, and the new fields are the gate's successor state |
| SmileEffects.SmileEffectsManager.FinishLater | app/src/main/java/com/example/licznikusmiechow/SmileEffectsManager.kt:334-338 | the posted callback sets `effectRunning = false` and nothing else |
| SmileEffects.FiresSpacedByCooldown | app/src/main/java/com/example/licznikusmiechow/SmileEffectsManager.kt:37-44 | over any sequence of smiles and finish callbacks, any two effects start at least 2800 ms apart (k cooldowns for effects k apart), and the first starts at least 2800 ms after the initial `lastEffectTime`, whatever the clock does |
| SmileEffects.LastEffectTimeTracksFires | app/src/main/java/com/example/licznikusmiechow/SmileEffectsManager.kt:42-43 | `lastEffectTime` ends at the start time of the last effect, or where it began if none started |
| SmileEffects.BusyIgnoresSmiles | app/src/main/java/com/example/licznikusmiechow/SmileEffectsManager.kt:38 | while an effect runs and its finish callback has not come, no smile starts anything and the state is unchanged |
| SmileEffects.OneEffectPerSmileRun | app/src/main/java/com/example/licznikusmiechow/SmileEffectsManager.kt:37-44 | a smile that fires, followed by any number of smiles and no finish callback, starts exactly one effect |
| SmileEffects.InitialCooldown | app/src/main/java/com/example/licznikusmiechow/SmileEffectsManager.kt:23-26 | from a fresh manager, smiles before clock value 2800 are rejected and change nothing |
| Settings.RoundToInt | app/src/main/java/com/example/licznikusmiechow/SettingsActivity.kt:86 | `roundToInt()` lands within half a unit of its argument, so halves round up |
| Settings.CoerceAtLeast | app/src/main/java/com/example/licznikusmiechow/SettingsActivity.kt:60 | the result is at least the bound, and it is the value when the value is not below the bound |
| Settings.CoerceAtMost | app/src/main/java/com/example/licznikusmiechow/SettingsActivity.kt:64 | the result is at most the bound, and it is the value when the value is not above the bound |
| Settings.CoerceIn | app/src/main/java/com/example/licznikusmiechow/SettingsActivity.kt:86 | the result lies in the range; it is the value when the value is inside, `lo` when the value is below and `hi` when it is above |
| Settings.StepsCount | app/src/main/java/com/example/licznikusmiechow/SettingsActivity.kt:26 | `stepsCount` is 100 |
| Settings.ThresholdToProgress | app/src/main/java/com/example/licznikusmiechow/SettingsActivity.kt:85-87 | every threshold, even one outside `[-2, 2]`, maps to a valid slider position `0..stepsCount` |
| Settings.ThresholdClamped | app/src/main/java/com/example/licznikusmiechow/SettingsActivity.kt:85-87 | a stored threshold above 2 puts the slider at `stepsCount`, one below -2 puts it at 0 |
| Settings.ProgressRange | app/src/main/java/com/example/licznikusmiechow/SettingsActivity.kt:81-83 | slider positions 0 and `stepsCount` map to -2 and 2, and every position maps into `[-2, 2]` |
| Settings.RoundTrip | app/src/main/java/com/example/licznikusmiechow/SettingsActivity.kt:81-87 | for exact arithmetic, a slider position converted to a threshold and back is the same position |
| Settings.ProgressStep | app/src/main/java/com/example/licznikusmiechow/SettingsActivity.kt:81-83 | neighbouring positions are one step of 0.04 apart, and the mapping is strictly increasing |
| Settings.ResetPosition | app/src/main/java/com/example/licznikusmiechow/SettingsActivity.kt:67-69 | the default threshold 0.0 sits at position 50, and position 50 maps back to 0.0 |
| Settings.SettingsActivity.constructor | app/src/main/java/com/example/licznikusmiechow/SettingsActivity.kt:42-45 | the slider starts at the position of the stored threshold, which is always a valid position |
| Settings.SettingsActivity.Minus | app/src/main/java/com/example/licznikusmiechow/SettingsActivity.kt:59-61 | the minus button moves one step down, stops at 0, and keeps the position valid |
| Settings.SettingsActivity.Plus | app/src/main/java/com/example/licznikusmiechow/SettingsActivity.kt:63-65 | the plus button moves one step up, stops at `stepsCount`, and keeps the position valid |
| Settings.SettingsActivity.Reset | app/src/main/java/com/example/licznikusmiechow/SettingsActivity.kt:67-69 | the reset button moves to position 50, whose threshold is the default 0.0 |
| YuvUtils.ChromaFits | app/src/main/java/com/example/licznikusmiechow/YuvUtils.kt:12-15 | the `2 * (width/2) * (height/2)` chroma bytes fit after the Y bytes within the `ySize + uvSize` output |
| YuvUtils.YLayout | app/src/main/java/com/example/licznikusmiechow/YuvUtils.kt:17-22 | Y pixel (r, c) lands at output index `r * width + c` |
| YuvUtils.ChromaLayout | app/src/main/java/com/example/licznikusmiechow/YuvUtils.kt:38-49 | chroma sample (r, c) becomes the pair at `ySize + 2 * (r * (width/2) + c)`, V first and then U |
| YuvUtils.EvenSizesNoPadding | app/src/main/java/com/example/licznikusmiechow/YuvUtils.kt:13-15 | for even width and height the chroma pairs fill the output exactly, with no trailing bytes |
| YuvUtils.FastPathAgrees | app/src/main/java/com/example/licznikusmiechow/YuvUtils.kt:65-69 | for a tightly packed plane (`pixelStride == 1`, `rowStride == width`), the packed bytes are the buffer's own first bytes, so the block copy gives what the row-by-row copy gives |
| YuvUtils.BulkGet | app/src/main/java/com/example/licznikusmiechow/YuvUtils.kt:67 | `get(dst, offset, length)` copies `length` consecutive source bytes to `dst[offset ..]` and changes nothing else |
| YuvUtils.CopyRow | app/src/main/java/com/example/licznikusmiechow/YuvUtils.kt:72-82 | one row is written, as a block when `pixelStride == 1` and sample by sample otherwise, to the next `width` output bytes, and nothing else changes |
| YuvUtils.CopyBlock | app/src/main/java/com/example/licznikusmiechow/YuvUtils.kt:65-69 | the fast path writes the packed plane to `out[offset ..]` and nothing else |
| YuvUtils.CopyPlane | app/src/main/java/com/example/licznikusmiechow/YuvUtils.kt:54-84 | on both paths, `out[offset + k]` becomes packed sample `k` of the plane (row `k / width`, column `k % width`, read at `row * rowStride + col * pixelStride`) for every `k < width * height`, and the rest of `out` is unchanged |
| YuvUtils.CopyChromaRow | app/src/main/java/com/example/licznikusmiechow/YuvUtils.kt:40-48 | one chroma row writes its V/U pairs at the NV21 positions and nothing else |
| YuvUtils.CopyChroma | app/src/main/java/com/example/licznikusmiechow/YuvUtils.kt:38-49 | after the Y plane is in place, the chroma loop over all rows leaves every byte of the output equal to its NV21 byte, the padding left at zero |
| YuvUtils.Yuv420ToNv21 | app/src/main/java/com/example/licznikusmiechow/YuvUtils.kt:9-52 | the output is a new array of `ySize + uvSize` bytes, and every byte is the NV21 byte for its position: Y samples, then V/U pairs, then zeros for odd sizes |
| FrameAnalysis.MainActivity.constructor | app/src/main/java/com/example/licznikusmiechow/MainActivity.kt:42 | the counter starts at 0 |
| FrameAnalysis.MainActivity.OnFrame | app/src/main/java/com/example/licznikusmiechow/MainActivity.kt:101-103 | the counter becomes `(frameCount + 1) % 5` and stays in `[0, 5)`, and the frame is analysed exactly when the new value is 0 |
| FrameAnalysis.CounterInRange | app/src/main/java/com/example/licznikusmiechow/MainActivity.kt:42-102 | after any number of frames the counter is in `[0, 5)` |
| FrameAnalysis.OneInFive | app/src/main/java/com/example/licznikusmiechow/MainActivity.kt:101-103 | from any counter value, exactly one of the next five frames is analysed, and the counter returns to its value |
| FrameAnalysis.CountSplit | app/src/main/java/com/example/licznikusmiechow/MainActivity.kt:101-103 | frames analysed over `a + b` frames are those over `a` plus those over the following `b` |
| FrameAnalysis.OneInEveryFive | app/src/main/java/com/example/licznikusmiechow/MainActivity.kt:101-103 | over `5 * k` consecutive frames exactly `k` are analysed |
| FrameAnalysis.FirstAnalysedFrame | app/src/main/java/com/example/licznikusmiechow/MainActivity.kt:42-103 | a fresh activity skips its first four frames and analyses the fifth |
| FrameAnalysis.MirrorProperties | app/src/main/java/com/example/licznikusmiechow/MainActivity.kt:144-146 | mirroring keeps top, bottom and width, and mirroring twice gives the original box |
| FrameAnalysis.MirrorStaysInView | app/src/main/java/com/example/licznikusmiechow/MainActivity.kt:144-146 | a box inside the view stays inside it after mirroring |
| FrameAnalysis.CropOf | app/src/main/java/com/example/licznikusmiechow/MainActivity.kt:149-155 | the crop origin is clamped to `>= 0` (exactly 0 for a face over the left or top edge), the crop is never larger than the face, and for a face with a non-negative origin the crop ends inside the bitmap |
| FrameAnalysis.CropOfInside | app/src/main/java/com/example/licznikusmiechow/MainActivity.kt:149-155 | a face inside the bitmap is cropped exactly, and `createBitmap` accepts the crop |
| FrameAnalysis.CropPastLeftEdge | app/src/main/java/com/example/licznikusmiechow/MainActivity.kt:151-153 | for a face overhanging the left edge, the crop ends inside the bitmap exactly when the face is no wider than the bitmap |
| FrameAnalysis.SmilingStrict | app/src/main/java/com/example/licznikusmiechow/MainActivity.kt:159 | `pYes > pNot` is strict: a tie is not a smile, and of two different probabilities exactly one order is a smile |
| FrameAnalysis.AnalyseFaces | app/src/main/java/com/example/licznikusmiechow/MainActivity.kt:132-164 | Four things. (1) The frame reaches the screen exactly when every crop is accepted; otherwise the reported face is the first one rejected. (2) `boxes` holds one entry per face, in detection order. (3) Each box is the mirrored scaled face rectangle, labelled "Smiling" exactly when `pYes > pNot`. (4) `status` is "Brak twarzy" with no faces and otherwise holds the last face's label and `pYes` |
| FrameAnalysis.FacesInsideReachScreen | app/src/main/java/com/example/licznikusmiechow/MainActivity.kt:149-155 | when every detected face lies inside the bitmap, no crop is rejected |

## Left out

- Camera setup, permissions, OpenCV face detection, bitmap conversion, rotation, grayscale and `runOnUiThread`. These are platform I/O. The detected faces arrive as a parameter of `FrameAnalysis.AnalyseFaces`.
- The smile network. `predictSmile` is a foreign TFLite call. Its `(pNot, pYes)` results arrive, one pair per face, as the `probs` parameter.
- The preview scale factors `previewView.width / gray.width()`. These are float divisions by view sizes and arrive as parameters.
- The status text's `%.2f` formatting. `Status` keeps the label and the unformatted `pYes`.
- Loading the SVM from its JSON asset, and every `Log` call. These are I/O; the model takes an `SvmModel` value.
- `SmileSvm.WellFormed`: the decision function's loops index `scale`, each support vector and `dualCoef` by the feature and support-vector counts without checking them. `predictLabel` also indexes `classes[0]` and `classes[1]` unchecked. The model requires those lengths, at least two classes for `SmileSvm.PredictLabel`, and also a non-zero scale, because the reals have no division by zero giving infinity or NaN.
- All animations, the random effect choice and the `postDelayed` delay of the effects manager. The finish callback is modelled as an `EffectDone` event.
- `SmileEffects.SmileEffectsManager.OnSmileDetected`: the layer size and `SystemClock.uptimeMillis()` are parameters, not read from the view and the clock.
- Persisting the threshold in the preferences (`onProgressChanged`) and the sound switch. These are storage I/O.
- Bit-exact float behaviour: the rounding of `0.04f`, float versus double averages, and the float `hypot` conversion. All arithmetic is over the reals.
- `Settings.RoundTrip`: holds over exact arithmetic only, not for the float `0.04f` step.
- `LipsFeatureExtractor.ComputeFeatures`: `meanX` is computed by the source but never used, so it is not modelled. Exact scale invariance is not claimed, because the `1e-8` in the width breaks it.
- `SmileSvm.ExampleOriginSmiles`: the example only fixes the score where the kernel is `exp(0) = 1`. With the minimal axioms on `exp`, scores of other inputs cannot be decided.
- 32-bit `Int` overflow in `width * height`, `row * rowStride` and the crop sums is not modelled. Integers are unbounded.
- `YuvUtils.Yuv420ToNv21`: requires a positive width, as the camera delivers. It also requires every plane to cover its samples (`Covers`). The Y plane's fast path reads with a relative `get(out, outPos, len)` (`YuvUtils.kt:67`), which the model takes to start at buffer position 0, as `duplicate()` of a fresh plane buffer gives. The chroma reads (`YuvUtils.kt:44-45`) and the general path (which sets the position at `YuvUtils.kt:74`, or reads at an index at `YuvUtils.kt:79`) do not depend on the buffer position.
- `YuvUtils.CopyRow`: the `position(srcPos)` call is folded into the block read at `srcPos`.
- Aliasing between the plane buffers and the output is not modelled. Plane buffers are immutable sequences, so the source planes being only read holds by construction.
- `FrameAnalysis.AnalyseFaces`: a crop that `createBitmap` rejects is modelled as a thrown exception. The analyser has only a `finally` that closes the frame (`MainActivity.kt:100-172`), so the exception leaves the analyser callback without updating the screen; what CameraX does with it is not modelled. The detector only reports faces inside the bitmap, so that path is not taken in practice (`FrameAnalysis.FacesInsideReachScreen`).
