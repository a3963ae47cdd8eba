/**
 * The incremental-feed side of the script: the request parameters that
 * `loadConfiguration` builds, the `viewparams` time window of `downloadChangeSet`,
 * and what `downloadChangeSet` does with the downloaded feature collection.
 */
module FeedRequest {
  import opened Wrappers

  /** One key of a JSON object: missing, `null`, or holding a value. */
  datatype Entry<T> = Absent | Null | Given(value: T)

  /** Python's `data.get(key, default)`: `null` is returned as `None`, not as the default. */
  function Get<T>(e: Entry<T>, default: Option<T>): (r: Option<T>)
    ensures e.Absent? ==> r == default
    ensures e.Null? ==> r == None
    ensures e.Given? ==> r == Some(e.value)
  {
    match e
    case Absent => default
    case Null => None
    case Given(v) => Some(v)
  }

  /** The keys of `config.json` that `loadConfiguration` reads. */
  datatype ConfigFile = ConfigFile(
    wkid: Entry<string>,
    layerId: Entry<string>,
    idField: Entry<string>,
    pollInterval: Entry<int>,
    maxPollingTime: Entry<int>,
    targetFeatureClass: Entry<string>,
    retainAfterPurge: Entry<int>,
    initialBuffer: Entry<int>,
    sqlFilter: Entry<string>,
    cqlFilter: Entry<string>)

  /** The query parameters of a WFS `GetFeature` request for the changeset layer. */
  datatype Params = Params(
    service: string,
    version: string,
    typename: string,
    request: string,
    srsname: string,
    outputFormat: string,
    cqlFilter: Option<string>,
    bbox: Option<string>,
    viewparams: Option<string>)

  /** The configuration `loadConfiguration` leaves in the module's globals. */
  datatype Settings = Settings(
    layerId: string,
    idField: string,
    pollInterval: Option<int>,
    maxPollingTime: Option<int>,
    targetFeatureClass: Option<string>,
    retainAfterPurge: Option<int>,
    initialBuffer: Option<int>,
    sqlFilter: Option<string>,
    params: Params)

  /** The module-level defaults in force before the configuration is read. */
  const DefaultPollInterval := 10
  const DefaultMaxPollingTime := 600
  const DefaultInitialBuffer := 1000

  /** `f"{x}"` for an optional string: `None` prints as `None`. */
  function PyStr(o: Option<string>): string
  {
    if o.Some? then o.value else "None"
  }

  /**
   * `loadConfiguration()` (LINZ_WFS.py:302-351). `extentBbox` is
   * `geometryToBboxString(extent_geometry)` for the first record of the extent
   * feature class, or `None` when that feature class is empty; it is consulted only
   * when no `cql_filter` is configured, because a CQL filter and a bounding box cannot
   * be sent together.
   */
  function LoadConfiguration(cfg: ConfigFile, extentBbox: Option<string>): (r: Result<Settings>)
    ensures r.Fail? <==> Get(cfg.layerId, None).None? || Get(cfg.idField, None).None?
    ensures r.Fail? ==> r.stop == Exit(0)
    ensures r.Ok? ==> r.value.params.cqlFilter.None? || r.value.params.bbox.None?
    ensures r.Ok? ==> r.value.params.cqlFilter == Get(cfg.cqlFilter, None)
    ensures r.Ok? && r.value.params.cqlFilter.None? ==> r.value.params.bbox == extentBbox
    ensures r.Ok? ==> r.value.params.typename == "layer-" + r.value.layerId + "-changeset"
    ensures r.Ok? ==> r.value.params.srsname == "EPSG:" + PyStr(Get(cfg.wkid, Some("2193")))
    ensures r.Ok? ==> r.value.params.viewparams.None?
  {
    var wkid := Get(cfg.wkid, Some("2193"));
    var layerId := Get(cfg.layerId, None);
    if layerId.None? then Fail(Exit(0))
    else
      var idField := Get(cfg.idField, None);
      if idField.None? then Fail(Exit(0))
      else
        var cql := Get(cfg.cqlFilter, None);
        var bbox := if cql.None? then extentBbox else None;
        var params := Params("WFS", "2.0.0", "layer-" + layerId.value + "-changeset", "GetFeature",
                             "EPSG:" + PyStr(wkid), "json", cql, bbox, None);
        Ok(Settings(
          layerId.value,
          idField.value,
          Get(cfg.pollInterval, Some(DefaultPollInterval)),
          Get(cfg.maxPollingTime, Some(DefaultMaxPollingTime)),
          Get(cfg.targetFeatureClass, None),
          Get(cfg.retainAfterPurge, None),
          Get(cfg.initialBuffer, Some(DefaultInitialBuffer)),
          Get(cfg.sqlFilter, None),
          params))
  }

  /** `f"from:{changes_from};to:{changes_to}"` (LINZ_WFS.py:672). */
  function ViewParams(changesFrom: string, changesTo: string): string
  {
    "from:" + changesFrom + ";to:" + changesTo
  }

  /** Index of the first `;` in `s`, or `|s|` when there is none. */
  function FirstSemicolon(s: string): (i: nat)
    ensures i <= |s|
    ensures forall j :: 0 <= j < i ==> s[j] != ';'
    ensures i < |s| ==> s[i] == ';'
  {
    if s == [] then 0 else if s[0] == ';' then 0 else 1 + FirstSemicolon(s[1..])
  }

  /** Reads the window back out of a `viewparams` value: the inverse of `ViewParams`. */
  function ParseViewParams(s: string): Option<(string, string)>
  {
    if |s| < 5 || s[..5] != "from:" then None
    else
      var rest := s[5..];
      var i := FirstSemicolon(rest);
      if |rest| - i < 4 || rest[i..i + 4] != ";to:" then None
      else Some((rest[..i], rest[i + 4..]))
  }

  /**
   * An ISO-8601 timestamp holds no `;`, so the window can be read back from the
   * parameter exactly: the server sees the `from` and `to` the script meant.
   */
  lemma ViewParamsRoundTrip(changesFrom: string, changesTo: string)
    requires forall j :: 0 <= j < |changesFrom| ==> changesFrom[j] != ';'
    ensures ParseViewParams(ViewParams(changesFrom, changesTo)) == Some((changesFrom, changesTo))
  {
    var s := ViewParams(changesFrom, changesTo);
    assert s[..5] == "from:";
    var rest := s[5..];
    assert rest == changesFrom + ";to:" + changesTo;
    FirstSemicolonOf(changesFrom, ";to:" + changesTo);
    assert rest[|changesFrom|..|changesFrom| + 4] == ";to:";
    assert rest[..|changesFrom|] == changesFrom;
    assert rest[|changesFrom| + 4..] == changesTo;
  }

  lemma {:induction false} FirstSemicolonOf(a: string, b: string)
    requires forall j :: 0 <= j < |a| ==> a[j] != ';'
    requires b != [] && b[0] == ';'
    ensures FirstSemicolon(a + b) == |a|
  {
    if a != [] {
      assert (a + b)[1..] == a[1..] + b;
      FirstSemicolonOf(a[1..], b);
    } else {
      assert a + b == b;
    }
  }

  /** What the watermark file holds: it may be missing, or lack a usable `last_updated`. */
  datatype WatermarkFile = NoFile | WatermarkRecord(lastUpdated: Entry<string>)

  /**
   * The request window of `downloadChangeSet` (LINZ_WFS.py:654-672): a missing file or
   * a falsy `last_updated` ends the run with `exit(1)`; otherwise the window runs from
   * the stored watermark to `changesTo`, the current time as text.
   */
  function ChangesetWindow(file: WatermarkFile, changesTo: string): (r: Result<string>)
    ensures r.Fail? ==> r.stop == Exit(1)
    ensures r.Ok? <==> file.WatermarkRecord? && file.lastUpdated.Given? && file.lastUpdated.value != ""
    ensures r.Ok? ==> r.value == ViewParams(file.lastUpdated.value, changesTo)
  {
    if file.NoFile? then Fail(Exit(1))
    else
      var changesFrom := Get(file.lastUpdated, None);
      if changesFrom.None? || changesFrom.value == "" then Fail(Exit(1))
      else Ok(ViewParams(changesFrom.value, changesTo))
  }

  /** The downloaded response, once it is read back from disk. */
  datatype ChangesetFile =
    | NotJson                                          // `json.load` raises `JSONDecodeError`
    | FeatureCollection(numberReturned: Entry<int>, timeStamp: Entry<string>)

  /** What the run goes on with after the download. */
  datatype Fetched = Fetched(hasChanges: bool, watermark: Option<string>)

  /**
   * The end of `downloadChangeSet` (LINZ_WFS.py:695-713): the server's `timeStamp`
   * becomes the watermark candidate first; a `numberReturned` of 0 (or none at all)
   * then means nothing is applied. A body that is not JSON ends the run with `exit(1)`;
   * a `null` count makes `int(None)` raise.
   */
  function ReadChangesetFile(file: ChangesetFile): (r: Result<Fetched>)
    ensures file.NotJson? ==> r == Fail(Exit(1))
    ensures r.Fail? && file.FeatureCollection? ==> file.numberReturned.Null? && r.stop == Raised(TypeError)
    ensures r.Ok? ==> r.value.watermark == Get(file.timeStamp, None)
    ensures r.Ok? ==> (r.value.hasChanges <==> file.numberReturned.Given? && file.numberReturned.value != 0)
  {
    match file
    case NotJson => Fail(Exit(1))
    case FeatureCollection(n, ts) =>
      var watermark := Get(ts, None);
      var count := Get(n, Some(0));
      if count.None? then Fail(Raised(TypeError))
      else Ok(Fetched(count.value != 0, watermark))
  }

  /**
   * `update_last_updated_file(update_time)` (LINZ_WFS.py:285-299): a recorded candidate
   * is written as it is; `None` means the current time is written instead.
   */
  function WatermarkWritten<T>(candidate: Option<T>, now: T): T
  {
    if candidate.Some? then candidate.value else now
  }

  /**
   * An empty changeset is skipped, yet the watermark still moves to the server's
   * timestamp, so the next run does not ask for the same window again.
   */
  lemma EmptyChangesetStillAdvances(ts: string, now: string)
    ensures ReadChangesetFile(FeatureCollection(Given(0), Given(ts))).Ok?
    ensures !ReadChangesetFile(FeatureCollection(Given(0), Given(ts))).value.hasChanges
    ensures WatermarkWritten(ReadChangesetFile(FeatureCollection(Given(0), Given(ts))).value.watermark, now) == ts
  {
  }

  /**
   * Whatever `numberReturned` says, a changeset reply that is read back moves the
   * watermark to the server's `timeStamp`; only a reply without one falls back to
   * the time at the end of the run.
   */
  lemma WatermarkFollowsTimeStamp(file: ChangesetFile, now: string)
    ensures ReadChangesetFile(file).Ok? && file.timeStamp.Given? ==>
              WatermarkWritten(ReadChangesetFile(file).value.watermark, now) == file.timeStamp.value
    ensures ReadChangesetFile(file).Ok? && !file.timeStamp.Given? ==>
              WatermarkWritten(ReadChangesetFile(file).value.watermark, now) == now
  {
  }
}
