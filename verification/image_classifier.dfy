/**
 * The ImageClassifier object: a TensorFlow Lite interpreter together with the
 * model's input size, label list and quantization flag. `recognizeImage`
 * encodes a camera frame, runs the interpreter on it and ranks the scores;
 * `close` releases the interpreter.
 */
module Classifier {
  import opened Wrappers
  import opened Detection
  import opened TensorEncoder
  import opened Ranking

  /**
   * The interpreter loaded from the model file, seen through `run`: the
   * input buffer's bytes go in, one row of scores comes out (raw bytes for a
   * quantized model, floats for a float model). Its length is whatever the
   * model's output tensor holds.
   */
  datatype Interpreter = Interpreter(runQuant: seq<bv8> -> seq<bv8>, runFloat: seq<bv8> -> seq<real>)

  /** `run` rejects an output array whose shape differs from the model's output tensor. */
  datatype RecognitionError = OutputShapeMismatch(expected: nat, actual: nat)

  class ImageClassifier {
    /** `None` stands for the `null` interpreter of a fresh or closed classifier. */
    var interpreter: Option<Interpreter>
    var inputSize: nat
    var labelList: seq<string>
    var quant: bool

    /** The no-argument constructor: every field keeps its Java default. */
    constructor()
      ensures interpreter.None? && inputSize == 0 && labelList == [] && !quant
    {
      interpreter := None;
      inputSize := 0;
      labelList := [];
      quant := false;
    }

    /**
     * `create`: a new classifier holding the interpreter built from the model
     * file, the labels read from the label file, the input size and the flag.
     */
    static method Create(model: Interpreter, labels: seq<string>, inputSize: nat, quant: bool)
      returns (classifier: ImageClassifier)
      ensures fresh(classifier)
      ensures classifier.interpreter == Some(model)
      ensures classifier.labelList == labels
      ensures classifier.inputSize == inputSize
      ensures classifier.quant == quant
    {
      classifier := new ImageClassifier();
      classifier.interpreter := Some(model);
      classifier.labelList := labels;
      classifier.inputSize := inputSize;
      classifier.quant := quant;
    }

    /**
     * What `recognizeImage` returns for a frame whose pixels are `intValues`:
     * the interpreter's scores for the encoded frame, ranked by the byte
     * ranker for a quantized model and by the float ranker otherwise; a shape
     * error when the model does not produce one score per label.
     */
    ghost predicate Recognized(intValues: seq<bv32>, putFloat: FloatBytes,
                               result: Result<seq<DetectedObject>, RecognitionError>)
      reads this
      requires interpreter.Some?
    {
      var input := Encode(quant, putFloat, intValues);
      if quant then
        var scores := interpreter.value.runQuant(input);
        if |scores| == |labelList| then
          result.Success? && IsRanking(ByteConfidences(scores), labelList, quant, Descending, result.value)
        else
          result == Failure(OutputShapeMismatch(|labelList|, |scores|))
      else
        var scores := interpreter.value.runFloat(input);
        if |scores| == |labelList| then
          result.Success? && IsRanking(scores, labelList, quant, Ascending, result.value)
        else
          result == Failure(OutputShapeMismatch(|labelList|, |scores|))
    }

    /**
     * `recognizeImage`: encodes the frame, runs the interpreter into an array
     * of one score per label and ranks that array.
     * `intValues` is the frame as `Bitmap.getPixels` delivers it and
     * `putFloat` the platform's float encoding.
     */
    method RecognizeImage(intValues: seq<bv32>, putFloat: FloatBytes)
      returns (result: Result<seq<DetectedObject>, RecognitionError>)
      requires interpreter.Some?
      requires |intValues| == inputSize * inputSize
      requires BufferSize(inputSize, quant) <= INT_MAX
      ensures Recognized(intValues, putFloat, result)
      ensures result.Success? ==> |result.value| <= MAX_RESULTS
    {
      var byteBuffer := ConvertBitmapToByteBuffer(inputSize, quant, putFloat, intValues);
      var engine := interpreter.value;
      if quant {
        var scores := engine.runQuant(byteBuffer[..]);
        if |scores| != |labelList| {
          return Failure(OutputShapeMismatch(|labelList|, |scores|));
        }
        var ranked := GetSortedResultByte(labelList, quant, scores);
        result := Success(ranked);
      } else {
        var scores := engine.runFloat(byteBuffer[..]);
        if |scores| != |labelList| {
          return Failure(OutputShapeMismatch(|labelList|, |scores|));
        }
        var ranked := GetSortedResultFloat(labelList, quant, scores);
        result := Success(ranked);
      }
    }

    /** `close`: releases the interpreter; the classifier is no longer usable. */
    method Close()
      requires interpreter.Some?
      modifies this
      ensures interpreter.None?
      ensures inputSize == old(inputSize) && labelList == old(labelList) && quant == old(quant)
    {
      interpreter := None;
    }
  }
}
