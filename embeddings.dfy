/**
 * `aef_export/embeddings.py`: the quantizer that turns floating-point
 * embedding bands into signed 8-bit values, and the export of one image to
 * cloud storage.
 */
module Embeddings {
  import opened Wrappers
  import opened Strings
  import opened EarthEngine
  import Utils

  const Power: real := 2.0
  const ScaleFactor: real := 127.5
  const MinValue: int := -127
  const MaxValue: int := 127

  /** The workload tag the export runs under. */
  const ExportTag: string := "export-image"
  /** `maxPixels=2e10` */
  const MaxPixels: int := 20_000_000_000

  /**
   * `_quantize_embeddings`: the stages, innermost first, are the power-law
   * root of the magnitude times the sign, scaling by 127.5, rounding,
   * clamping to [-127, 127], and the cast to int8.
   */
  function QuantizeEmbeddings(image: Image): Image
  {
    var sat := Multiply(Pow(Abs(image), 1.0 / Power), Signum(image));
    var snapped := Round(Multiply(sat, Constant(ScaleFactor)));
    Int8(Clamp(snapped, MinValue, MaxValue))
  }

  /**
   * Every quantized value is a whole number in [-127, 127], never of the
   * opposite sign to the value it comes from, and zero stays zero.
   */
  lemma QuantizedValue(image: Image, v: real, n: Numerics)
    requires Sound(n)
    ensures var x := PixelValue(image, v, n);
      var q := PixelValue(QuantizeEmbeddings(image), v, n);
      && q == q.Floor as real
      && MinValue as real <= q <= MaxValue as real
      && (x > 0.0 ==> q >= 0.0)
      && (x < 0.0 ==> q <= 0.0)
      && (x == 0.0 ==> q == 0.0)
  {
    var x := PixelValue(image, v, n);
    var satImage := Multiply(Pow(Abs(image), 1.0 / Power), Signum(image));
    var snappedImage := Round(Multiply(satImage, Constant(ScaleFactor)));
    assert QuantizeEmbeddings(image) == Int8(Clamp(snappedImage, MinValue, MaxValue));
    var root := n.pow(AbsValue(x), 1.0 / Power);
    assert root >= 0.0;
    var sat := root * SignValue(x);
    assert PixelValue(Abs(image), v, n) == AbsValue(x);
    assert PixelValue(Pow(Abs(image), 1.0 / Power), v, n) == root;
    assert PixelValue(Signum(image), v, n) == SignValue(x);
    assert PixelValue(satImage, v, n) == sat;
    assert x > 0.0 ==> sat >= 0.0;
    assert x < 0.0 ==> sat <= 0.0;
    assert x == 0.0 ==> sat == 0.0;
    var scaled := sat * ScaleFactor;
    assert sat >= 0.0 ==> scaled >= 0.0;
    assert sat <= 0.0 ==> scaled <= 0.0;
    var rounded := n.round(scaled);
    assert PixelValue(Multiply(satImage, Constant(ScaleFactor)), v, n) == scaled;
    assert PixelValue(snappedImage, v, n) == rounded as real;
    var clamped := ClampValue(rounded as real, MinValue, MaxValue);
    assert clamped == rounded as real || clamped == MinValue as real || clamped == MaxValue as real;
    assert clamped == clamped.Floor as real;
    assert n.int8(clamped) == clamped;
    assert PixelValue(Clamp(snappedImage, MinValue, MaxValue), v, n) == clamped;
  }

  /** `ee.Image(image_id)`, quantized when `quantize` is set. */
  function SourceImage(imageId: string, quantize: bool): Image
  {
    var image := Load(imageId);
    if quantize then QuantizeEmbeddings(image) else image
  }

  /**
   * Quantization is applied exactly when the flag is set: with it every
   * exported value is the quantized one, without it every value is the
   * asset's own.
   */
  lemma ExportedValues(imageId: string, quantize: bool, v: real, n: Numerics)
    requires Sound(n)
    ensures var q := PixelValue(SourceImage(imageId, quantize), v, n);
      && (quantize ==> q == q.Floor as real && MinValue as real <= q <= MaxValue as real
                       && (v > 0.0 ==> q >= 0.0) && (v < 0.0 ==> q <= 0.0))
      && (!quantize ==> q == v)
      && (quantize <==> SourceImage(imageId, quantize) != Load(imageId))
  {
    if quantize {
      QuantizedValue(Load(imageId), v, n);
    }
  }

  /** `f"export-image-{image_id.split('/')[-1]}"` */
  function Description(imageId: string): string
  {
    "export-image-" + LastSegment(imageId, '/')
  }

  /**
   * The description is "export-image-" followed by the part of the image id
   * after its last '/', or the whole id when it has none.
   */
  lemma DescriptionNamesLastSegment(imageId: string)
    ensures var d := Description(imageId);
      && |d| >= 13 && d[..13] == "export-image-"
      && var s := d[13..];
      && |s| <= |imageId| && imageId[|imageId| - |s|..] == s && '/' !in s
      && (|s| < |imageId| ==> imageId[|imageId| - |s| - 1] == '/')
      && ('/' !in imageId ==> s == imageId)
  {
    LastSegmentIsLongestSuffix(imageId, '/');
    var s := LastSegment(imageId, '/');
    assert Description(imageId)[13..] == s;
  }

  /**
   * `export_image`: builds the request, creates and starts the task inside the
   * "export-image" tag scope, and returns the task's id. The service's answer
   * to `task.start()` is `response`; an exception it raises propagates after
   * the tag is reset.
   */
  method ExportImage(ee: Session, response: StartResponse, imageId: string, bucket: string, keyPrefix: string,
                     quantize: bool := false)
    returns (r: Result<string, string>)
    requires ee.Valid()
    modifies ee
    ensures ee.Valid()
    ensures var task := ImageToCloudStorage(ImageExport(
        image := SourceImage(imageId, quantize),
        description := Description(imageId),
        bucket := bucket,
        fileNamePrefix := keyPrefix,
        maxPixels := MaxPixels,
        cloudOptimized := true));
      ee.trace == old(ee.trace) + Utils.Scope(ExportTag, [CreateTask(task), StartTask(task)])
    ensures ee.workloadTag == None
    ensures response.Started? ==> r == Success(response.taskId)
    ensures response.Raised? ==> r == Failure(response.error)
  {
    var image := Load(imageId);
    if quantize {
      image := QuantizeEmbeddings(image);
    }
    var task := ImageToCloudStorage(ImageExport(
      image := image,
      description := "export-image-" + LastSegment(imageId, '/'),
      bucket := bucket,
      fileNamePrefix := keyPrefix,
      maxPixels := MaxPixels,
      cloudOptimized := true));
    var outcome := match response
      case Started(id) => Success(id)
      case Raised(e) => Failure(e);
    r := Utils.WithWorkloadTag(ee, ExportTag, [CreateTask(task), StartTask(task)], outcome);
  }

  /**
   * Within the calls `export_image` makes, the task is created and then
   * started exactly once, both under the "export-image" tag, which is reset
   * afterwards.
   */
  lemma ExportStartsOnceUnderTag(before: seq<Event>, request: ImageExport)
    ensures var task := ImageToCloudStorage(request);
      var trace := before + Utils.Scope(ExportTag, [CreateTask(task), StartTask(task)]);
      && trace[|before| + 1] == CreateTask(task) && TagAt(trace, |before| + 1) == Some(ExportTag)
      && trace[|before| + 2] == StartTask(task) && TagAt(trace, |before| + 2) == Some(ExportTag)
      && (forall i :: |before| <= i < |trace| && trace[i].StartTask? ==> i == |before| + 2)
      && TagAfter(None, trace) == None
  {
    var task := ImageToCloudStorage(request);
    var body := [CreateTask(task), StartTask(task)];
    Utils.BodyRunsUnderTag(before, ExportTag, body, 0);
    Utils.BodyRunsUnderTag(before, ExportTag, body, 1);
    Utils.NoTagAfterScope(before, ExportTag, body);
  }
}
