/**
 * The values the synchronisation engine works on: rows and their fields, the
 * per-dataset API configuration, filters, status events, the units of the row
 * stream, the reads of a mutation response body, and the results of `update`.
 */
module Model {
  import opened Wrappers

  /** A field value of a row, with the JavaScript primitives a primary key can hold. */
  datatype Value = Undefined | Null | Bool(b: bool) | Num(n: int) | Str(s: string)

  /** A row: field name to value. */
  type Row = map<string, Value>

  /** The metadata object of a `meta` unit. */
  type Meta = map<string, Value>

  /** `row[primaryKey]`: a missing field reads as `undefined`. */
  function KeyOf(row: Row, primaryKey: string): Value {
    if primaryKey in row then row[primaryKey] else Undefined
  }

  /**
   * What the engine reads of the configuration: the query and update endpoint
   * prefixes, and per dataset the endpoint name, the primary-key field and the
   * optional modified-tracking column.
   */
  datatype ApiConfig = ApiConfig(
    queryUrl: string,
    updateUrl: string,
    apiName: string,
    primaryKey: string,
    modified: Option<string>)

  /** The modified-tracking column when it is configured and not empty (`if (modifiedColumn)`). */
  function ModifiedColumn(cfg: ApiConfig): Option<string> {
    if cfg.modified.Some? && cfg.modified.value != "" then cfg.modified else None
  }

  /** A caller's filter, kept opaque. */
  datatype FilterArgument = FilterArgument(expression: string)

  /**
   * The filter handed to the row stream: the caller's own, or what
   * `getModifiedFilter(query || null, column, since)` makes of it.
   */
  datatype Filter =
    | Given(arg: FilterArgument)
    | ModifiedSince(base: Option<FilterArgument>, column: string, since: int)

  /** The events passed to the status callback. */
  datatype StatusEvent =
    | Connecting  // info "Connecting to database" / "Updating grid, please wait", all three counters 0
    | Info(header: string, content: string)
    | Downloading(rowCount: int)  // info "Downloading data"; its text carries a clock reading
    | Error(title: string, message: Option<string>)
    | Done  // header and content null

  /** Everything the engine does that leaves the engine, in order. */
  datatype Effect =
    | ApiCallStart
    | ApiCallEnd
    | Status(event: StatusEvent)
    | Post(url: string, body: seq<Row>)
    | StreamRequest(url: string, query: Option<Filter>)
    | Reload
    | CollectionSorted
    | Reselect(primaryKey: string)

  /** One unit delivered by the row stream. */
  datatype StreamUnit =
    | DataUnit(row: Row)
    | MetaUnit(meta: Meta)
    | LengthUnit(count: int)
    | ErrorUnit(message: string)

  /** One result of `reader.read()`: `value` is "" where the stream gives `undefined`. */
  datatype Read = Read(value: string, done: bool)

  /** The response to the update request: `response.ok` and the body, `None` for a null body. */
  datatype Response = Response(ok: bool, body: Option<seq<Read>>)

  /**
   * What reading `msg` from `JSON.parse(text)` gives: the parse throws
   * (`Unparsable`), the text is `null` so reading `.msg` throws (`NullValue`),
   * or the value's `msg` property (`None` for `undefined`).
   */
  datatype MsgRead = Unparsable | NullValue | Parsed(msg: Option<string>)

  /**
   * The value `update` resolves to: `{success, data: ids}`, `{success: false,
   * data: "no changes"}`, or a rejected promise when reading the error body throws.
   */
  datatype UpdateResult = Reply(success: bool, data: seq<int>) | NoChanges | Rejected
}
