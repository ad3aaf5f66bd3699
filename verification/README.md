# Visionize image classifier, modelled in Dafny

Visionize is an Android app that shows what the camera sees. Each frame goes to
an `ImageClassifier`, which wraps a TensorFlow Lite MobileNet model. The
classifier does three things around the interpreter:

- **Pre-processing.** It turns the frame's `inputSize x inputSize` packed ARGB
  pixels into the model's input buffer, row by row. A quantized model gets one
  byte per red, green and blue channel. A float model gets the four bytes of
  `(channel - 128) / 120` per channel.
- **Post-processing.** It keeps every class whose confidence is above
  `THRESHOLD` (0.1f), puts it in a priority queue as a `DetectedObject`, and
  polls at most `MAX_RESULTS` (3) of them into the result.
- **Lifecycle.** `create` sets the classifier up and `close` releases the
  interpreter.

A `DetectedObject` is an immutable record: id, title, quantization flag and
confidence. Its `toString` is the title followed by the percentage in
parentheses, trimmed.

The project is split into six modules:

- `Wrappers`: `Option` and `Result`.
- `JavaText`: the Java string behaviour the code relies on. This is
  `String.trim` and the decimal rendering of `"" + i`.
- `Detection`: `DetectedObject` and its `toString`.
- `TensorEncoder`: `convertBitmapToByteBuffer`. It is an `array` filled by a
  nested loop and proved equal to a functional encoding `Encode`.
- `Ranking`: one ranker parameterised by the comparator's direction, plus the
  byte and float rankers built on it.
- `Classifier`: the `ImageClassifier` class, with its mutable fields,
  `Create`, `RecognizeImage` and `Close`.

The quantized ranker's comparator orders confidences from high to low. The
float ranker's comparator (`ImageClassifier.java:216`) orders them from low to
high. So for a float model the classifier returns the three *smallest*
confidences above the threshold, smallest first. The methods' doc comments
(`ImageClassifier.java:166-169` and `202-206`) say only that they sort the
probability array so that relevant predictions are displayed. The app itself
always builds a float classifier (`QUANT_MODEL = false`,
`MainActivity.java:37`), so it always takes the ascending path. The model
follows the code.

`IsRanking` is the specification both rankers are proved against. It says the
result:

- has `min(#qualifying, 3)` entries;
- is drawn without repetition from the objects built for the classes above the
  threshold;
- is in the comparator's order;
- has every qualifying object that was left out coming after every object
  returned.

`PriorityQueue.poll` is modelled as choosing *any* comparator-least element.
So every proved property holds whatever order the heap gives to ties.

## Model

| member | source | states |
|---|---|---|
| JavaText.Trim | app/src/main/java/com/example/visionize/DetectedObject.java:64 | `trim` never lengthens a string and leaves no character <= U+0020 at either end |
| JavaText.TrimStart | app/src/main/java/com/example/visionize/DetectedObject.java:64 | removing leading whitespace leaves a string that is empty or starts with a non-whitespace character |
| JavaText.TrimEnd | app/src/main/java/com/example/visionize/DetectedObject.java:64 | removing trailing whitespace leaves a string that is empty or ends with a non-whitespace character |
| JavaText.TrimStartIsSuffix | app/src/main/java/com/example/visionize/DetectedObject.java:64 | removing leading whitespace keeps a suffix and drops only whitespace characters |
| JavaText.TrimEndIsPrefix | app/src/main/java/com/example/visionize/DetectedObject.java:64 | removing trailing whitespace keeps a prefix and drops only whitespace characters |
| JavaText.TrimIsTrimmedSlice | app/src/main/java/com/example/visionize/DetectedObject.java:64 | `trim` returns the contiguous slice of the input between its outer whitespace, with only whitespace outside it |
| JavaText.TrimKeepsTrimmed | app/src/main/java/com/example/visionize/DetectedObject.java:64 | a string with no outer whitespace is returned unchanged, so `trim` is idempotent |
| JavaText.TrimStartAppend | app/src/main/java/com/example/visionize/DetectedObject.java:54-64 | removing leading whitespace from a concatenation works on the first non-blank part |
| JavaText.TrimEndAppend | app/src/main/java/com/example/visionize/DetectedObject.java:54-64 | removing trailing whitespace from a concatenation works on the last non-blank part |
| JavaText.NatToString | app/src/main/java/com/example/visionize/ImageClassifier.java:187 | `"" + i` is a non-empty string of decimal digits without a leading zero |
| JavaText.DecimalRoundTrip | app/src/main/java/com/example/visionize/ImageClassifier.java:187 | reading the id back as a decimal number gives the class index |
| JavaText.NatToStringInjective | app/src/main/java/com/example/visionize/ImageClassifier.java:187 | two class indices get the same id exactly when they are equal |
| Detection.AccessorsReturnFields | app/src/main/java/com/example/visionize/DetectedObject.java:17-46 | `getId`, `getTitle` and `getConfidence` return exactly the constructor's arguments |
| Detection.DetectedObject.ToString | app/src/main/java/com/example/visionize/DetectedObject.java:53-65 | the result has no outer whitespace; it is "" with no title and no confidence, the trimmed title with a title only, and with a confidence it is the title (leading blanks removed, one space after it, nothing if blank) followed by `"(" + pct + "%)"` |
| Detection.TitleLeadIsTrimmedTitlePart | app/src/main/java/com/example/visionize/DetectedObject.java:56-58 | what stands before the percentage is the title part `title + " "` with its leading whitespace removed |
| Detection.TrimTitlePart | app/src/main/java/com/example/visionize/DetectedObject.java:56-64 | with no confidence, trimming `title + " "` gives the trimmed title |
| Detection.TrimBeforePercentage | app/src/main/java/com/example/visionize/DetectedObject.java:60-64 | trimming keeps the parenthesised percentage whole and removes only the title part's leading whitespace and the final space |
| TensorEncoder.Red | app/src/main/java/com/example/visionize/ImageClassifier.java:152 | the red channel `(val >> 16) & 0xFF` of a packed pixel |
| TensorEncoder.Green | app/src/main/java/com/example/visionize/ImageClassifier.java:153 | the green channel `(val >> 8) & 0xFF` of a packed pixel |
| TensorEncoder.Blue | app/src/main/java/com/example/visionize/ImageClassifier.java:154 | the blue channel `val & 0xFF` of a packed pixel |
| TensorEncoder.ChannelsOfPackedPixel | app/src/main/java/com/example/visionize/ImageClassifier.java:152-154 | the three extractors give back the red, green and blue of any packed ARGB color, whatever its alpha |
| TensorEncoder.BufferSize | app/src/main/java/com/example/visionize/ImageClassifier.java:138-142 | the capacity allocated for the mode is the pixel count times the bytes per pixel (3 quantized, 12 float) |
| TensorEncoder.Normalized | app/src/main/java/com/example/visionize/ImageClassifier.java:156-158 | a channel normalised for a float model lies in [-128/120, 127/120] |
| TensorEncoder.PixelBytes | app/src/main/java/com/example/visionize/ImageClassifier.java:151-159 | a pixel contributes 3 bytes when quantized and 12 bytes otherwise |
| TensorEncoder.EncodeLength | app/src/main/java/com/example/visionize/ImageClassifier.java:148-162 | the encoding has exactly bytes-per-pixel times the pixel count bytes |
| TensorEncoder.EncodeSlice | app/src/main/java/com/example/visionize/ImageClassifier.java:147-162 | the bytes of pixel `p` sit at `w*p .. w*p + w` and are that pixel's bytes |
| TensorEncoder.EncodeRoom | app/src/main/java/com/example/visionize/ImageClassifier.java:147-162 | after the first `n` pixels' bytes there is room for pixel `n`'s bytes |
| TensorEncoder.EncodeOneMore | app/src/main/java/com/example/visionize/ImageClassifier.java:150-159 | encoding one more pixel appends exactly that pixel's bytes |
| TensorEncoder.EncodeFillsBuffer | app/src/main/java/com/example/visionize/ImageClassifier.java:138-162 | `inputSize * inputSize` pixels fill the allocated capacity exactly |
| TensorEncoder.BufferSizesFor224 | app/src/main/java/com/example/visionize/ImageClassifier.java:138-142 | for a 224 x 224 input the buffer holds 150528 bytes quantized and 602112 bytes as floats |
| TensorEncoder.RowMajorInBounds | app/src/main/java/com/example/visionize/ImageClassifier.java:148-150 | the row-major index `i * n + j` of a grid cell lies inside the pixel array |
| TensorEncoder.QuantizedLayout | app/src/main/java/com/example/visionize/ImageClassifier.java:147-154 | for the pixel at row `i`, column `j` (`p = i*n + j`), bytes `3p`, `3p+1` and `3p+2` are its `(v>>16)&0xFF`, `(v>>8)&0xFF` and `v&0xFF` |
| TensorEncoder.FloatLayout | app/src/main/java/com/example/visionize/ImageClassifier.java:155-158 | bytes `12p .. 12p+12` are the float encodings of pixel `p`'s normalised red, green and blue, four bytes each |
| TensorEncoder.Put | app/src/main/java/com/example/visionize/ImageClassifier.java:152-158 | `put`/`putFloat` writes the bytes at the position, keeps what was written before and every byte after them, and advances the position past them |
| TensorEncoder.PutPixel | app/src/main/java/com/example/visionize/ImageClassifier.java:151-159 | one inner-loop step appends the pixel's bytes to what was written and leaves the rest of the buffer as it was |
| TensorEncoder.ConvertBitmapToByteBuffer | app/src/main/java/com/example/visionize/ImageClassifier.java:135-164 | the buffer has the capacity allocated for the mode, and its contents are the row-major encoding of all pixels |
| Ranking.ThresholdIsOneTenth | app/src/main/java/com/example/visionize/ImageClassifier.java:33 | `THRESHOLD` (the exact value of 0.1f) lies just above 0.1 |
| Ranking.Precedes | app/src/main/java/com/example/visionize/ImageClassifier.java:177-181 | the byte comparator `Float.compare(rhs, lhs)` puts higher confidences first (`Descending`); the float comparator at lines 213-217 puts lower ones first (`Ascending`) |
| Ranking.ComparatorIsTotalPreorder | app/src/main/java/com/example/visionize/ImageClassifier.java:213-217 | on scored objects each comparator is reflexive, total and transitive, and the descending order is the ascending order mirrored |
| Ranking.ByteConfidence | app/src/main/java/com/example/visionize/ImageClassifier.java:185 | the confidence of a quantized score lies in [0, 1] and, scaled by 255, gives back the unsigned byte |
| Ranking.Entry | app/src/main/java/com/example/visionize/ImageClassifier.java:187-189 | the object built for class `i` has an id that reads back as `i`, title `labels[i]` and confidence `confs[i]` |
| Ranking.Candidates | app/src/main/java/com/example/visionize/ImageClassifier.java:184-191 | the add loop queues at most one object per class, each with a confidence above `THRESHOLD` |
| Ranking.LeastExists | app/src/main/java/com/example/visionize/ImageClassifier.java:174-182 | every non-empty queue of scored objects has a head that the comparator puts before all others |
| Ranking.Poll | app/src/main/java/com/example/visionize/ImageClassifier.java:196 | `poll` removes one occurrence of a scored element that comes, in the comparator's order, before everything left |
| Ranking.RemoveAt | app/src/main/java/com/example/visionize/ImageClassifier.java:196 | removing the polled element leaves the others, in order, and splits the queue's multiset |
| Ranking.PollStep | app/src/main/java/com/example/visionize/ImageClassifier.java:195-197 | polling one more head keeps the result in order, ahead of what is left, and a split of the queued objects |
| Ranking.PolledIsRanking | app/src/main/java/com/example/visionize/ImageClassifier.java:193-199 | after `min(size, MAX_RESULTS)` polls the result is a ranking of the queued objects |
| Ranking.Rank | app/src/main/java/com/example/visionize/ImageClassifier.java:184-199 | the shared ranker's result is a ranking: `min(#qualifying, 3)` qualifying objects, without repetition, in the comparator's order, none left out that should come earlier |
| Ranking.GetSortedResultByte | app/src/main/java/com/example/visionize/ImageClassifier.java:172-200 | the byte ranker returns a ranking of the decoded confidences, highest first |
| Ranking.GetSortedResultFloat | app/src/main/java/com/example/visionize/ImageClassifier.java:208-236 | the float ranker returns a ranking of the confidences in ascending order, lowest first |
| Ranking.QualifyingSpec | app/src/main/java/com/example/visionize/ImageClassifier.java:184-186 | the indices queued are exactly those below the label count whose confidence is above `THRESHOLD`, in increasing order |
| Ranking.CandidatesAreEntries | app/src/main/java/com/example/visionize/ImageClassifier.java:184-190 | the object queued for qualifying index `i` is the one with id `"" + i`, title `labels[i]` and confidence `confs[i]` |
| Ranking.CandidatesDistinct | app/src/main/java/com/example/visionize/ImageClassifier.java:184-190 | no two queued objects share an id |
| Ranking.NoCandidates | app/src/main/java/com/example/visionize/ImageClassifier.java:184-191 | nothing is queued when no confidence is above `THRESHOLD` |
| Ranking.OneCandidate | app/src/main/java/com/example/visionize/ImageClassifier.java:184-191 | with one confidence above `THRESHOLD`, only that class's object is queued |
| Ranking.RankingSize | app/src/main/java/com/example/visionize/ImageClassifier.java:194 | a ranking has exactly `min(#qualifying, MAX_RESULTS)` entries, never more than 3 |
| Ranking.RankedEntriesQualify | app/src/main/java/com/example/visionize/ImageClassifier.java:184-189 | every returned entry is the object of a class above `THRESHOLD`: id `"" + i`, title `labels[i]` (never "unknown"), confidence `confs[i]` |
| Ranking.RankedIdsDistinct | app/src/main/java/com/example/visionize/ImageClassifier.java:184-197 | no class appears twice in the result |
| Ranking.LeftOutIsQueued | app/src/main/java/com/example/visionize/ImageClassifier.java:184-197 | a qualifying class missing from the result was queued and is still in the queue when polling stops |
| Ranking.LeftOutComesAfter | app/src/main/java/com/example/visionize/ImageClassifier.java:193-197 | every qualifying class that is left out comes, in the comparator's order, after every returned entry: a true top 3 |
| Ranking.NothingQualifiesRanksNothing | app/src/main/java/com/example/visionize/ImageClassifier.java:184-197 | with no confidence above `THRESHOLD` the result is empty |
| Ranking.OneQualifierRanksAlone | app/src/main/java/com/example/visionize/ImageClassifier.java:184-197 | with exactly one confidence above `THRESHOLD` the result is that class's object alone |
| Ranking.ByteThreshold | app/src/main/java/com/example/visionize/ImageClassifier.java:185-186 | a quantized score passes the threshold exactly when its unsigned value is at least 26; confidences lie in [0, 1] and 255 gives 1.0 |
| Ranking.ZeroBytesRankNothing | app/src/main/java/com/example/visionize/ImageClassifier.java:184-197 | an all-zero quantized score vector gives an empty result |
| Ranking.ZeroFloatsRankNothing | app/src/main/java/com/example/visionize/ImageClassifier.java:220-233 | an all-zero float score vector gives an empty result |
| Classifier.ImageClassifier.constructor | app/src/main/java/com/example/visionize/ImageClassifier.java:43-45 | a classifier built with the no-argument constructor has no interpreter, no labels, size 0 and is not quantized |
| Classifier.ImageClassifier.Create | app/src/main/java/com/example/visionize/ImageClassifier.java:58-70 | `create` returns a new open classifier whose interpreter, labels, input size and flag are the given ones |
| Classifier.ImageClassifier.RecognizeImage | app/src/main/java/com/example/visionize/ImageClassifier.java:79-90 | the frame is encoded and run through the interpreter; the scores are ranked by the byte ranker for a quantized model and by the float ranker otherwise; at most 3 entries result; an output of the wrong size is an error |
| Classifier.ImageClassifier.Close | app/src/main/java/com/example/visionize/ImageClassifier.java:242-245 | `close` leaves the classifier closed (no interpreter) and its other fields unchanged; it needs an open classifier |

## Left out

- `loadModelFile` and `loadLabelList` (`ImageClassifier.java:100-126`) read assets through memory-mapped files and a `BufferedReader`. That is I/O. `Create` takes the loaded interpreter and the label list as arguments.
- The TensorFlow Lite interpreter is foreign code. `Interpreter` stands for it: two total functions from the input buffer's bytes to a row of scores. `interpreter.close()` is reduced to dropping the reference.
- `Bitmap.getPixels` (`ImageClassifier.java:146`) is an Android library call. `RecognizeImage` takes its output, `intValues`, which holds `inputSize * inputSize` pixels.
- TensorEncoder.FloatLayout: single-precision rounding and `ByteOrder.nativeOrder()` are not modelled. `putFloat` is a parameter giving four bytes for each real value.
- Ranking.ByteConfidence: the confidence is the exact rational `ub / 255`, not its float rounding. The threshold test and the order of confidences are the same either way, because distinct values of `ub / 255` are much further apart than a float's rounding step.
- Ranking.GetSortedResultFloat: float scores are modelled as reals. NaN, infinities and `-0.0` are not modelled. NaN and `-0.0` never pass `> THRESHOLD` anyway.
- Detection.DetectedObject.ToString: `String.format(Locale.CANADA, "%.1f", ...)` and the float product `confidence * 100.0f` are not modelled. The rendering is a parameter `render`, applied to the exact product.
- The `Classifier` interface (`Classifier.java`) has no logic. It is represented by the `ImageClassifier` class's `RecognizeImage` and `Close`.
- MainActivity.java is not part of this model. It holds the camera callbacks, UI, background executor and the presentation of `List.toString`.
- Classifier.ImageClassifier.RecognizeImage: the case where the buffer size overflows Java `int` is not modelled. A precondition requires the size to fit in an `int`. `inputSize` is a natural number, so a negative `inputSize` is not modelled either (Java would allocate a zero-filled buffer of `3 * n * n` or `12 * n * n` bytes and skip both loops).
- Classifier.ImageClassifier.RecognizeImage: calling it on a closed classifier would throw `NullPointerException` in Java. The model does not cover that path; a precondition requires an open classifier. The same applies to `Close`.
- Classifier.ImageClassifier.constructor: `labelList` starts as `null` in Java. It is modelled as the empty list.
- Java's `>>` is an arithmetic shift and `bv32`'s `>>` is a logical shift. This makes no difference, because every shifted value is masked with `0xFF`.
