/**
 * `aef_export/coverage.py`: the image-to-feature property transform and the
 * export of an image collection's coverage metadata to a warehouse table.
 */
module Coverage {
  import opened Wrappers
  import opened Strings
  import opened EarthEngine
  import Utils

  const StartDate: string := "start_date"
  const EndDate: string := "end_date"
  const TimeStart: string := "system:time_start"
  const TimeEnd: string := "system:time_end"
  const BandNames: string := "system:band_names"
  const Bands: string := "system:bands"

  /** The workload tag the export runs under. */
  const CoverageTag: string := "image-collection-coverage"

  /** An image's footprint reprojected by the service: `geometry.transform(crs, maxError)`. */
  datatype Reprojected<G> = Reprojected(footprint: G, crs: string, maxError: real)

  /** An image as `image_to_feature` sees it: its footprint and its property map. */
  datatype ImageInfo<G, V> = ImageInfo(footprint: G, properties: map<string, V>)

  datatype Feature<G, V> = Feature(geometry: Reprojected<G>, properties: map<string, V>)

  /** `img.get(key)`: the property's value, or null when the image has none. */
  function Get<V>(properties: map<string, V>, key: string): Option<V>
  {
    if key in properties then Some(properties[key]) else None
  }

  /**
   * `image_to_feature`. `formatDate` stands for `ee.Date(value).format("YYYY-MM-dd")`,
   * applied to what `img.get` returns. `Dictionary.remove` fails on a key that
   * is not there, so an image without either band key yields the missing key
   * as the error.
   */
  function ImageToFeature<G, V>(img: ImageInfo<G, V>, formatDate: Option<V> -> V): (r: Result<Feature<G, V>, string>)
    ensures r.Failure? <==> BandNames !in img.properties || Bands !in img.properties
    ensures r.Failure? ==> r.error in {BandNames, Bands} && r.error !in img.properties
    ensures r.Success? ==> r.value.geometry == Reprojected(img.footprint, "EPSG:4326", 1.0)
    ensures r.Success? ==>
      var p := r.value.properties;
      && StartDate in p && p[StartDate] == formatDate(Get(img.properties, TimeStart))
      && EndDate in p && p[EndDate] == formatDate(Get(img.properties, TimeEnd))
      && BandNames !in p && Bands !in p
    ensures r.Success? ==>
      forall k :: k in img.properties && k != StartDate && k != EndDate && k != BandNames && k != Bands
                  ==> k in r.value.properties && r.value.properties[k] == img.properties[k]
    ensures r.Success? ==>
      forall k :: k in r.value.properties ==> k in img.properties || k == StartDate || k == EndDate
  {
    var keys := img.properties.Keys;
    var properties := map k | k in keys :: img.properties[k];
    var properties := properties[StartDate := formatDate(Get(img.properties, TimeStart))];
    var properties := properties[EndDate := formatDate(Get(img.properties, TimeEnd))];
    if BandNames !in properties then Failure(BandNames)
    else if Bands !in properties then Failure(Bands)
    else
      var properties := properties - {BandNames, Bands};
      Success(Feature(Reprojected(img.footprint, "EPSG:4326", 1.0), properties))
  }

  /** `f"{project}.{dataset}.{table}"` */
  function TableReference(project: string, dataset: string, table: string): string
  {
    project + "." + dataset + "." + table
  }

  /** The table reference names its three parts: splitting it at '.' gives them back. */
  lemma TableReferenceParts(project: string, dataset: string, table: string)
    requires '.' !in project && '.' !in dataset && '.' !in table
    ensures Split(TableReference(project, dataset, table), '.') == [project, dataset, table]
  {
    var parts := [project, dataset, table];
    assert Join(".", parts[2..]) == table;
    assert Join(".", parts[1..]) == dataset + "." + table;
    assert Join(".", parts) == TableReference(project, dataset, table);
    SplitJoin(parts, '.');
  }

  /** `str(uuid.uuid4())[:8]`, with the uuid's text given. */
  function ShortUuid(uuidText: string): string
  {
    Take(uuidText, 8)
  }

  /** `f"image-collection-coverage-{short_uuid}"` */
  function CoverageDescription(uuidText: string): string
  {
    "image-collection-coverage-" + ShortUuid(uuidText)
  }

  /**
   * The description is "image-collection-coverage-" followed by the uuid's
   * first eight characters (all of it when shorter).
   */
  lemma CoverageDescriptionNamesUuid(uuidText: string)
    ensures var d := CoverageDescription(uuidText);
      && |d| == 26 + (if |uuidText| < 8 then |uuidText| else 8)
      && d[..26] == "image-collection-coverage-"
      && d[26..] == uuidText[..|d| - 26]
  {
    var d := CoverageDescription(uuidText);
    assert d[26..] == ShortUuid(uuidText);
  }

  /**
   * `export_image_collection`: maps every image of the collection to its
   * feature, then creates and starts the warehouse export inside the
   * "image-collection-coverage" tag scope and returns the task's id. The
   * text of the random uuid is `uuidText`; the service's answer to
   * `task.start()` is `response`.
   */
  method ExportImageCollection(ee: Session, response: StartResponse, uuidText: string,
                               project: string, dataset: string, table: string, collectionName: string)
    returns (r: Result<string, string>)
    requires ee.Valid()
    modifies ee
    ensures ee.Valid()
    ensures var task := TableToBigQuery(TableExport(
        collection := CoverageFeatures(collectionName),
        table := TableReference(project, dataset, table),
        description := CoverageDescription(uuidText),
        overwrite := true));
      ee.trace == old(ee.trace) + Utils.Scope(CoverageTag, [CreateTask(task), StartTask(task)])
    ensures ee.workloadTag == None
    ensures response.Started? ==> r == Success(response.taskId)
    ensures response.Raised? ==> r == Failure(response.error)
  {
    var features := CoverageFeatures(collectionName);
    var shortUuid := Take(uuidText, 8);
    var task := TableToBigQuery(TableExport(
      collection := features,
      table := project + "." + dataset + "." + table,
      description := "image-collection-coverage-" + shortUuid,
      overwrite := true));
    var outcome := match response
      case Started(id) => Success(id)
      case Raised(e) => Failure(e);
    r := Utils.WithWorkloadTag(ee, CoverageTag, [CreateTask(task), StartTask(task)], outcome);
  }

  /**
   * Within the calls `export_image_collection` makes, the task is created and
   * then started exactly once, both under the "image-collection-coverage"
   * tag, which is reset afterwards.
   */
  lemma CoverageExportStartsOnceUnderTag(before: seq<Event>, request: TableExport)
    ensures var task := TableToBigQuery(request);
      var trace := before + Utils.Scope(CoverageTag, [CreateTask(task), StartTask(task)]);
      && trace[|before| + 1] == CreateTask(task) && TagAt(trace, |before| + 1) == Some(CoverageTag)
      && trace[|before| + 2] == StartTask(task) && TagAt(trace, |before| + 2) == Some(CoverageTag)
      && (forall i :: |before| <= i < |trace| && trace[i].StartTask? ==> i == |before| + 2)
      && TagAfter(None, trace) == None
  {
    var task := TableToBigQuery(request);
    var body := [CreateTask(task), StartTask(task)];
    Utils.BodyRunsUnderTag(before, CoverageTag, body, 0);
    Utils.BodyRunsUnderTag(before, CoverageTag, body, 1);
    Utils.NoTagAfterScope(before, CoverageTag, body);
  }
}
