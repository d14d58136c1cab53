/**
 * What `fetchData` and `loadAll` compute from the units the row stream
 * delivers: the fetched rows, the last metadata, the error flag and the
 * status events of the fold; the query URL; the mode decision and the filter
 * it implies; and the effects and final container of a whole `loadAll`.
 */
module Fetch {
  import opened Wrappers
  import opened Model
  import Text
  import Reconcile
  import opened Decoder

  // ---------------------------------------------------------------- the unit fold

  /** The status events one unit causes: a progress line per `length` unit, an error per `error` unit. */
  function UnitEffects(u: StreamUnit): (r: seq<Effect>) {
    match u
    case LengthUnit(count) => [Status(Downloading(count))]
    case ErrorUnit(message) => [Status(Error("Fetch error", Some(message)))]
    case _ => []
  }

  /** The `data` payloads, in arrival order. */
  function FetchedRows(units: seq<StreamUnit>): seq<Row>
    decreases |units|
  {
    if units == [] then []
    else
      var last := units[|units| - 1];
      FetchedRows(units[..|units| - 1]) + (if last.DataUnit? then [last.row] else [])
  }

  /** `metaData` after the fold: the payload of the last `meta` unit, else what it was. */
  function LastMeta(units: seq<StreamUnit>, meta: Meta): Meta
    decreases |units|
  {
    if units == [] then meta
    else
      var last := units[|units| - 1];
      if last.MetaUnit? then last.meta else LastMeta(units[..|units| - 1], meta)
  }

  /** `fetchError` after the fold. */
  function HasError(units: seq<StreamUnit>): bool
    decreases |units|
  {
    if units == [] then false
    else units[|units| - 1].ErrorUnit? || HasError(units[..|units| - 1])
  }

  /** The status events of the fold, in arrival order. */
  function UnitEvents(units: seq<StreamUnit>): seq<Effect>
    decreases |units|
  {
    if units == [] then []
    else UnitEvents(units[..|units| - 1]) + UnitEffects(units[|units| - 1])
  }

  /** The number of `error` units. */
  function ErrorUnits(units: seq<StreamUnit>): nat
    decreases |units|
  {
    if units == [] then 0
    else ErrorUnits(units[..|units| - 1]) + (if units[|units| - 1].ErrorUnit? then 1 else 0)
  }

  /** One more unit extends the fold by what that unit contributes. */
  lemma FoldStep(units: seq<StreamUnit>, i: nat, meta: Meta)
    requires i < |units|
    ensures var u := units[i];
      && FetchedRows(units[..i + 1]) == FetchedRows(units[..i]) + (if u.DataUnit? then [u.row] else [])
      && LastMeta(units[..i + 1], meta) == (if u.MetaUnit? then u.meta else LastMeta(units[..i], meta))
      && HasError(units[..i + 1]) == (u.ErrorUnit? || HasError(units[..i]))
      && UnitEvents(units[..i + 1]) == UnitEvents(units[..i]) + UnitEffects(u)
      && (u.DataUnit? || u.MetaUnit? ==> UnitEvents(units[..i + 1]) == UnitEvents(units[..i]))
  {
    assert units[..i + 1][..i] == units[..i];
    if units[i].DataUnit? || units[i].MetaUnit? {
      assert UnitEvents(units[..i]) + [] == UnitEvents(units[..i]);
    }
  }

  /** Folding two runs of units one after the other collects the rows of the first, then of the second. */
  lemma {:induction false} FetchedRowsAppend(u: seq<StreamUnit>, v: seq<StreamUnit>)
    ensures FetchedRows(u + v) == FetchedRows(u) + FetchedRows(v)
    decreases |v|
  {
    if v != [] {
      var init := v[..|v| - 1];
      assert (u + v)[..|u + v| - 1] == u + init;
      assert (u + v)[|u + v| - 1] == v[|v| - 1];
      FetchedRowsAppend(u, init);
    } else {
      assert u + v == u;
    }
  }

  /** A row is fetched exactly when some unit carries it. */
  lemma {:induction false} FetchedRowsMembers(units: seq<StreamUnit>, r: Row)
    ensures r in FetchedRows(units) <==> exists i :: 0 <= i < |units| && units[i] == DataUnit(r)
    decreases |units|
  {
    if units != [] {
      var init := units[..|units| - 1];
      FetchedRowsMembers(init, r);
      if exists i :: 0 <= i < |init| && init[i] == DataUnit(r) {
        var i :| 0 <= i < |init| && init[i] == DataUnit(r);
        assert units[i] == init[i];
      }
      if exists i :: 0 <= i < |units| && units[i] == DataUnit(r) {
        var i :| 0 <= i < |units| && units[i] == DataUnit(r);
        if i < |init| { assert init[i] == units[i]; }
      }
    }
  }

  /** An error unit does not stop the fold: the rows before and after it are all collected. */
  lemma FoldContinuesAfterError(u: seq<StreamUnit>, message: string, v: seq<StreamUnit>)
    ensures FetchedRows(u + [ErrorUnit(message)] + v) == FetchedRows(u) + FetchedRows(v)
    ensures HasError(u + [ErrorUnit(message)] + v)
  {
    FetchedRowsAppend(u + [ErrorUnit(message)], v);
    var w := u + [ErrorUnit(message)];
    assert w[..|w| - 1] == u;
    assert FetchedRows([ErrorUnit(message)]) == [] by {
      assert [ErrorUnit(message)][..0] == [];
    }
    FetchedRowsAppend(u, [ErrorUnit(message)]);
    HasErrorSpec(w + v);
    assert (w + v)[|u|] == ErrorUnit(message);
  }

  /** `metaData` ends as the last `meta` payload, and is left alone when there is none. */
  lemma {:induction false} LastMetaSpec(units: seq<StreamUnit>, meta: Meta)
    ensures (forall i :: 0 <= i < |units| ==> !units[i].MetaUnit?) ==> LastMeta(units, meta) == meta
    ensures forall i :: 0 <= i < |units| && units[i].MetaUnit? && (forall j :: i < j < |units| ==> !units[j].MetaUnit?) ==>
      LastMeta(units, meta) == units[i].meta
    decreases |units|
  {
    if units != [] {
      var init := units[..|units| - 1];
      var last := units[|units| - 1];
      LastMetaSpec(init, meta);
      forall i | 0 <= i < |init| ensures init[i] == units[i] { }
      forall i | 0 <= i < |units| && units[i].MetaUnit? && (forall j :: i < j < |units| ==> !units[j].MetaUnit?)
        ensures LastMeta(units, meta) == units[i].meta
      {
        if i < |units| - 1 {
          assert !last.MetaUnit?;
          assert forall j :: i < j < |init| ==> !init[j].MetaUnit?;
          assert LastMeta(init, meta) == init[i].meta;
        }
      }
    }
  }

  /** `fetchError` is set exactly when some unit is an error. */
  lemma {:induction false} HasErrorSpec(units: seq<StreamUnit>)
    ensures HasError(units) <==> exists i :: 0 <= i < |units| && units[i].ErrorUnit?
    ensures HasError(units) <==> ErrorUnits(units) > 0
    decreases |units|
  {
    if units != [] {
      var init := units[..|units| - 1];
      HasErrorSpec(init);
      if exists i :: 0 <= i < |init| && init[i].ErrorUnit? {
        var i :| 0 <= i < |init| && init[i].ErrorUnit?;
        assert units[i] == init[i];
      }
      if exists i :: 0 <= i < |units| && units[i].ErrorUnit? {
        var i :| 0 <= i < |units| && units[i].ErrorUnit?;
        if i < |init| { assert init[i] == units[i]; }
      }
    }
  }

  /** The fold emits one error event per error unit and no `done`. */
  lemma {:induction false} UnitEventsCounts(units: seq<StreamUnit>)
    ensures Count(UnitEvents(units), ErrorKind) == ErrorUnits(units)
    ensures Count(UnitEvents(units), DoneKind) == 0
    decreases |units|
  {
    if units != [] {
      var init := units[..|units| - 1];
      var last := units[|units| - 1];
      UnitEventsCounts(init);
      CountAppend(UnitEvents(init), UnitEffects(last), ErrorKind);
      CountAppend(UnitEvents(init), UnitEffects(last), DoneKind);
      match last
      case LengthUnit(count) =>
        CountCons(Status(Downloading(count)), [], ErrorKind);
        CountCons(Status(Downloading(count)), [], DoneKind);
      case ErrorUnit(message) =>
        CountCons(Status(Error("Fetch error", Some(message))), [], ErrorKind);
        CountCons(Status(Error("Fetch error", Some(message))), [], DoneKind);
      case _ =>
    }
  }

  // ---------------------------------------------------------------- the query URL

  /** The query string: `rows=0`, then `meta=1` when only metadata is asked for. */
  function QueryParams(metaDataOnly: bool): string {
    "rows=0" + (if metaDataOnly then "&meta=1" else "")
  }

  /** `generateQueryUrlParams(queryUrl, metaDataOnly)`. */
  function QueryUrl(queryUrl: string, metaDataOnly: bool): string {
    queryUrl + "?" + QueryParams(metaDataOnly)
  }

  /**
   * The URL takes apart again: the base URL, then after the last `?` the
   * parameters, `rows=0` and, only when asked, `meta=1`.
   */
  lemma QueryUrlSplit(queryUrl: string, metaDataOnly: bool)
    ensures var url := QueryUrl(queryUrl, metaDataOnly);
      && url[..|queryUrl|] == queryUrl
      && Text.LastSegment(url, '?') == QueryParams(metaDataOnly)
      && Text.Split(QueryParams(metaDataOnly), '&') == (if metaDataOnly then ["rows=0", "meta=1"] else ["rows=0"])
  {
    var p := QueryParams(metaDataOnly);
    NoQuestionMark(metaDataOnly);
    Text.SplitAroundSeparator(queryUrl, p, '?');
    Text.SplitWithoutSeparator(p, '?');
    assert QueryUrl(queryUrl, metaDataOnly) == queryUrl + ['?'] + p;
    ParamsSplit(metaDataOnly);
  }

  lemma NoQuestionMark(metaDataOnly: bool)
    ensures '?' !in QueryParams(metaDataOnly)
  {
    var p := QueryParams(metaDataOnly);
    forall k | 0 <= k < |p| ensures p[k] != '?' {
      if k < 6 {
        assert p[k] == "rows=0"[k];
      } else {
        assert p[k] == "&meta=1"[k - 6];
      }
    }
  }

  lemma ParamsSplit(metaDataOnly: bool)
    ensures Text.Split(QueryParams(metaDataOnly), '&') == (if metaDataOnly then ["rows=0", "meta=1"] else ["rows=0"])
  {
    assert '&' !in "rows=0" by {
      forall k | 0 <= k < 6 ensures "rows=0"[k] != '&' { }
    }
    Text.SplitWithoutSeparator("rows=0", '&');
    if metaDataOnly {
      assert '&' !in "meta=1" by {
        forall k | 0 <= k < 6 ensures "meta=1"[k] != '&' { }
      }
      assert QueryParams(metaDataOnly) == "rows=0" + ['&'] + "meta=1";
      Text.SplitAroundSeparator("rows=0", "meta=1", '&');
      Text.SplitWithoutSeparator("meta=1", '&');
    } else {
      assert QueryParams(metaDataOnly) == "rows=0";
    }
  }

  // ---------------------------------------------------------------- loadAll

  /** The effective mode: incremental only when asked for and some earlier fetch has set `lastRequest`. */
  function Incremental(updateOnly: bool, lastRequest: Option<int>): bool {
    updateOnly && lastRequest.Some?
  }

  /** The filter handed to the row stream: in incremental mode with a modified column, rewritten to "modified since". */
  function QueryUsed(cfg: ApiConfig, query: Option<FilterArgument>, incremental: bool, since: int): Option<Filter> {
    var column := ModifiedColumn(cfg);
    if incremental && column.Some? then Some(ModifiedSince(query, column.value, since))
    else if query.Some? then Some(Given(query.value))
    else None
  }

  /**
   * The filter is rewritten to "modified since" the given time exactly when
   * `updateOnly` is asked for, an earlier request has been made and a
   * non-empty modified column is configured; otherwise the caller's filter
   * is passed on unchanged, or none.
   */
  lemma QueryUsedSpec(cfg: ApiConfig, query: Option<FilterArgument>, updateOnly: bool, lastRequest: Option<int>, since: int)
    ensures var q := QueryUsed(cfg, query, Incremental(updateOnly, lastRequest), since);
      var rewritten := q.Some? && q.value.ModifiedSince?;
      && (rewritten <==> updateOnly && lastRequest.Some? && cfg.modified.Some? && cfg.modified.value != "")
      && (rewritten ==> q.value == ModifiedSince(query, cfg.modified.value, since))
      && (!rewritten ==> (q.Some? <==> query.Some?) && (q.Some? ==> q.value == Given(query.value)))
  {
  }

  /** The keys `loadAll` captures: those of the container's rows in incremental mode, none in full mode. */
  function CapturedKeys(rows: seq<Row>, primaryKey: string, incremental: bool): (keys: seq<Value>)
    ensures |keys| <= |rows|
  {
    if incremental then Reconcile.KeysOf(rows, primaryKey) else []
  }

  /** The container before the fetch: cleared in full mode, as it was in incremental mode. */
  function Prepared(rows: seq<Row>, incremental: bool): seq<Row> {
    if incremental then rows else []
  }

  /** The container after `loadAll`. */
  function LoadedRows(rows: seq<Row>, cfg: ApiConfig, incremental: bool, units: seq<StreamUnit>): seq<Row> {
    Reconcile.Reconciled(Prepared(rows, incremental), CapturedKeys(rows, cfg.primaryKey, incremental),
      cfg.primaryKey, FetchedRows(units), incremental)
  }

  /** The query URL of `loadAll`. */
  function LoadUrl(cfg: ApiConfig): string {
    QueryUrl(cfg.queryUrl + cfg.apiName, false)
  }

  /** The effects of `fetchData`: the stream request, then the events of the fold. */
  function FetchEffects(url: string, query: Option<Filter>, units: seq<StreamUnit>): seq<Effect> {
    [StreamRequest(url, query)] + UnitEvents(units)
  }

  /** After the fetch: reload and the sort notification and `done` only on success; then reselection, the transport end and `done`. */
  function LoadClosing(cfg: ApiConfig, error: bool): seq<Effect> {
    (if !error then [Reload, CollectionSorted, Status(Done)] else []) + [Reselect(cfg.primaryKey), ApiCallEnd, Status(Done)]
  }

  /** Everything `loadAll` emits. */
  function LoadAllEffects(cfg: ApiConfig, query: Option<Filter>, units: seq<StreamUnit>): seq<Effect> {
    [ApiCallStart, Status(Connecting)] + FetchEffects(LoadUrl(cfg), query, units) + LoadClosing(cfg, HasError(units))
  }

  /** In full mode the container ends as exactly the fetched rows, in arrival order. */
  lemma LoadAllFull(rows: seq<Row>, cfg: ApiConfig, units: seq<StreamUnit>)
    ensures LoadedRows(rows, cfg, false, units) == FetchedRows(units)
  {
    assert [] + FetchedRows(units) == FetchedRows(units);
  }

  /**
   * In incremental mode, each row of the container is replaced by the last
   * fetched row with the same key, when the container has no earlier row with
   * that key; the other rows stay; the fetched rows whose key is nowhere in
   * the container follow, in arrival order.
   */
  lemma LoadAllIncremental(rows: seq<Row>, cfg: ApiConfig, units: seq<StreamUnit>)
    ensures var keys := Reconcile.KeysOf(rows, cfg.primaryKey);
      var fetched := FetchedRows(units);
      var r := LoadedRows(rows, cfg, true, units);
      && |r| == |rows| + |Reconcile.NewRows(keys, cfg.primaryKey, fetched)|
      && (forall i :: 0 <= i < |rows| ==> r[i] == Reconcile.LastMatch(keys, cfg.primaryKey, fetched, i).GetOr(rows[i]))
      && r[|rows|..] == Reconcile.NewRows(keys, cfg.primaryKey, fetched)
  {
    Reconcile.MergeSpec(rows, Reconcile.KeysOf(rows, cfg.primaryKey), cfg.primaryKey, FetchedRows(units));
  }

  /** `loadAll` emits `done` twice after a clean fetch and once after a failed one, and always ends with it. */
  lemma LoadAllDoneCount(cfg: ApiConfig, query: Option<Filter>, units: seq<StreamUnit>)
    ensures var e := LoadAllEffects(cfg, query, units);
      && Count(e, DoneKind) == (if HasError(units) then 1 else 2)
      && Count(e, ErrorKind) == ErrorUnits(units)
      && e[|e| - 1] == Status(Done)
  {
    var opening := [ApiCallStart, Status(Connecting)];
    var fetch := FetchEffects(LoadUrl(cfg), query, units);
    var closing := LoadClosing(cfg, HasError(units));
    UnitEventsCounts(units);
    CountFetchEffects(LoadUrl(cfg), query, units);
    CountLoadOpening();
    CountLoadClosing(cfg, HasError(units));
    CountAppend(opening, fetch, DoneKind);
    CountAppend(opening, fetch, ErrorKind);
    CountAppend(opening + fetch, closing, DoneKind);
    CountAppend(opening + fetch, closing, ErrorKind);
  }

  lemma CountLoadOpening()
    ensures Count([ApiCallStart, Status(Connecting)], DoneKind) == 0
    ensures Count([ApiCallStart, Status(Connecting)], ErrorKind) == 0
  {
    assert [ApiCallStart, Status(Connecting)][1..] == [Status(Connecting)];
    assert [Status(Connecting)][1..] == [];
  }

  lemma CountFetchEffects(url: string, query: Option<Filter>, units: seq<StreamUnit>)
    ensures Count(FetchEffects(url, query, units), DoneKind) == Count(UnitEvents(units), DoneKind)
    ensures Count(FetchEffects(url, query, units), ErrorKind) == Count(UnitEvents(units), ErrorKind)
  {
    CountCons(StreamRequest(url, query), UnitEvents(units), DoneKind);
    CountCons(StreamRequest(url, query), UnitEvents(units), ErrorKind);
  }

  lemma CountLoadClosing(cfg: ApiConfig, error: bool)
    ensures var c := LoadClosing(cfg, error);
      && Count(c, DoneKind) == (if error then 1 else 2)
      && Count(c, ErrorKind) == 0
      && |c| >= 1 && c[|c| - 1] == Status(Done)
  {
    var tail := [Reselect(cfg.primaryKey), ApiCallEnd, Status(Done)];
    CountThree(Reselect(cfg.primaryKey), ApiCallEnd, Status(Done), DoneKind);
    CountThree(Reselect(cfg.primaryKey), ApiCallEnd, Status(Done), ErrorKind);
    if !error {
      var ok := [Reload, CollectionSorted, Status(Done)];
      CountThree(Reload, CollectionSorted, Status(Done), DoneKind);
      CountThree(Reload, CollectionSorted, Status(Done), ErrorKind);
      CountAppend(ok, tail, DoneKind);
      CountAppend(ok, tail, ErrorKind);
    } else {
      assert LoadClosing(cfg, error) == tail;
    }
  }
}
