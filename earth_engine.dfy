/**
 * The remote geospatial service as the exporter sees it. Images are lazy
 * expressions built by method chaining (`image.abs().pow(...)`), evaluated
 * pixel by pixel on the server; the floating-point primitives the server
 * uses are abstract. Export tasks and workload tags reach the service as
 * calls recorded, in order, by a `Session`.
 */
module EarthEngine {
  import opened Wrappers

  /** An `ee.Image` expression: an asset, a constant image, or a per-pixel operation on images. */
  datatype Image =
    | Load(assetId: string)                  // ee.Image(asset_id)
    | Constant(value: real)                  // a number promoted to a constant image
    | Abs(operand: Image)                    // image.abs()
    | Signum(operand: Image)                 // image.signum()
    | Pow(base: Image, exponent: real)       // image.pow(e)
    | Multiply(left: Image, right: Image)    // image.multiply(other)
    | Round(operand: Image)                  // image.round()
    | Clamp(operand: Image, low: int, high: int)  // image.clamp(low, high)
    | Int8(operand: Image)                   // image.int8()

  /** The server's floating-point primitives, left abstract. */
  datatype Numerics = Numerics(pow: (real, real) -> real, round: real -> int, int8: real -> real)

  /**
   * The facts about the primitives that the model relies on: a power of a
   * non-negative base is non-negative, rounding never crosses zero, and
   * casting an integer that fits in eight signed bits leaves it alone.
   */
  ghost predicate Sound(n: Numerics)
  {
    && (forall b: real, e: real :: b >= 0.0 ==> n.pow(b, e) >= 0.0)
    && (forall x: real :: x >= 0.0 ==> n.round(x) >= 0)
    && (forall x: real :: x <= 0.0 ==> n.round(x) <= 0)
    && (forall x: real :: x == x.Floor as real && -128.0 <= x <= 127.0 ==> n.int8(x) == x)
  }

  function AbsValue(x: real): real { if x < 0.0 then -x else x }

  function SignValue(x: real): real { if x > 0.0 then 1.0 else if x < 0.0 then -1.0 else 0.0 }

  /** `min(max(x, low), high)` */
  function ClampValue(x: real, low: int, high: int): (r: real)
    ensures low <= high ==> low as real <= r <= high as real
    ensures low as real <= x <= high as real ==> r == x
  {
    var atLeastLow := if x < low as real then low as real else x;
    if atLeastLow > high as real then high as real else atLeastLow
  }

  /**
   * The value of `img` at one pixel of one band, where every loaded asset
   * holds `v` there (the expressions of this model load a single asset).
   */
  function PixelValue(img: Image, v: real, n: Numerics): real
  {
    match img
    case Load(_) => v
    case Constant(c) => c
    case Abs(e) => AbsValue(PixelValue(e, v, n))
    case Signum(e) => SignValue(PixelValue(e, v, n))
    case Pow(e, p) => n.pow(PixelValue(e, v, n), p)
    case Multiply(a, b) => PixelValue(a, v, n) * PixelValue(b, v, n)
    case Round(e) => n.round(PixelValue(e, v, n)) as real
    case Clamp(e, lo, hi) => ClampValue(PixelValue(e, v, n), lo, hi)
    case Int8(e) => n.int8(PixelValue(e, v, n))
  }

  /** The arguments of `ee.batch.Export.image.toCloudStorage`. */
  datatype ImageExport = ImageExport(
    image: Image,
    description: string,
    bucket: string,
    fileNamePrefix: string,
    maxPixels: int,
    cloudOptimized: bool)

  /** `ee.ImageCollection(collectionId).map(image_to_feature)`, a lazy feature collection. */
  datatype FeatureCollection = CoverageFeatures(collectionId: string)

  /** The arguments of `ee.batch.Export.table.toBigQuery`. */
  datatype TableExport = TableExport(
    collection: FeatureCollection,
    table: string,
    description: string,
    overwrite: bool)

  datatype Task = ImageToCloudStorage(imageExport: ImageExport) | TableToBigQuery(tableExport: TableExport)

  /** A call that reaches the service, in the order the program makes it. */
  datatype Event =
    | SetWorkloadTag(tag: string)   // ee.data.setWorkloadTag(tag)
    | ResetWorkloadTag              // ee.data.resetWorkloadTag()
    | CreateTask(task: Task)        // ee.batch.Export....(...)
    | StartTask(task: Task)         // task.start()

  /** What the service answers to `task.start()`: the task's id, or the exception it raises. */
  datatype StartResponse = Started(taskId: string) | Raised(error: string)

  /** The workload tag in force after `events`, starting from `tag`; a reset restores the default (none). */
  function TagAfter(tag: Option<string>, events: seq<Event>): Option<string>
    decreases |events|
  {
    if |events| == 0 then tag
    else
      var next := match events[0]
        case SetWorkloadTag(t) => Some(t)
        case ResetWorkloadTag => None
        case _ => tag;
      TagAfter(next, events[1..])
  }

  lemma {:induction false} TagAfterConcat(tag: Option<string>, a: seq<Event>, b: seq<Event>)
    ensures TagAfter(tag, a + b) == TagAfter(TagAfter(tag, a), b)
    decreases |a|
  {
    if |a| == 0 {
      assert a + b == b;
    } else {
      var next := match a[0]
        case SetWorkloadTag(t) => Some(t)
        case ResetWorkloadTag => None
        case _ => tag;
      assert (a + b)[0] == a[0] && (a + b)[1..] == a[1..] + b;
      TagAfterConcat(next, a[1..], b);
    }
  }

  /** The workload tag in force when the `i`-th call of `trace` is made. */
  function TagAt(trace: seq<Event>, i: nat): Option<string>
    requires i <= |trace|
  {
    TagAfter(None, trace[..i])
  }

  /** The client library's connection to the service: its workload tag and every call made so far. */
  class Session {
    var workloadTag: Option<string>
    var trace: seq<Event>

    /** The tag held is the one the recorded calls leave in force. */
    ghost predicate Valid()
      reads this
    {
      workloadTag == TagAfter(None, trace)
    }

    constructor ()
      ensures Valid() && workloadTag == None && trace == []
    {
      workloadTag := None;
      trace := [];
    }

    method SetTag(tag: string)
      requires Valid()
      modifies this
      ensures Valid()
      ensures workloadTag == Some(tag) && trace == old(trace) + [SetWorkloadTag(tag)]
    {
      TagAfterConcat(None, trace, [SetWorkloadTag(tag)]);
      workloadTag := Some(tag);
      trace := trace + [SetWorkloadTag(tag)];
    }

    method ResetTag()
      requires Valid()
      modifies this
      ensures Valid()
      ensures workloadTag == None && trace == old(trace) + [ResetWorkloadTag]
    {
      TagAfterConcat(None, trace, [ResetWorkloadTag]);
      workloadTag := None;
      trace := trace + [ResetWorkloadTag];
    }

    /** Makes the calls `events`, in order. */
    method Perform(events: seq<Event>)
      requires Valid()
      modifies this
      ensures Valid()
      ensures trace == old(trace) + events
      ensures workloadTag == TagAfter(old(workloadTag), events)
    {
      TagAfterConcat(None, trace, events);
      workloadTag := TagAfter(workloadTag, events);
      trace := trace + events;
    }
  }
}
