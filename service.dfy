/**
 * The `Service` class: the dataset's container, the time of the last fetch,
 * the metadata of the last `meta` unit and the effect log, updated in place by
 * `loadAll`, `fetchData` and `update`. Each method is tied to the functions
 * of `Decoder` and `Fetch` whose properties are proved there.
 */
module Sync {
  import opened Wrappers
  import opened Model
  import Text
  import JsonIds
  import opened Decoder
  import Reconcile
  import opened Fetch

  /** The rows of a dataset, as the data controller keeps them. */
  class DataContainer {
    var rows: seq<Row>

    constructor ()
      ensures rows == []
    {
      rows := [];
    }

    /** `setData(data, append)`: append to the rows, or replace them. */
    method SetData(data: seq<Row>, append: bool)
      modifies this
      ensures rows == if append then old(rows) + data else data
    {
      if append {
        rows := rows + data;
      } else {
        rows := data;
      }
    }

    /**
     * The per-row path of `fetchData`: each row replaces the row at the first
     * position of its key among `keys`, or is appended.
     */
    method MergeRows(fetched: seq<Row>, keys: seq<Value>, primaryKey: string)
      requires |keys| <= |rows|
      modifies this
      ensures rows == Reconcile.Merge(old(rows), keys, primaryKey, fetched)
    {
      var j := 0;
      while j < |fetched|
        invariant 0 <= j <= |fetched|
        invariant rows == Reconcile.Merge(old(rows), keys, primaryKey, fetched[..j])
      {
        var row := fetched[j];
        var index := Reconcile.IndexOf(keys, KeyOf(row, primaryKey));
        if index != -1 {
          Replace(row, index);
        } else {
          SetData([row], true);
        }
        assert fetched[..j + 1][..j] == fetched[..j];
        j := j + 1;
      }
      assert fetched[..j] == fetched;
    }

    /** `replace([row], index, 1)`: the row at `index` becomes `row`. */
    method Replace(row: Row, index: nat)
      requires index < |rows|
      modifies this
      ensures rows == old(rows)[index := row]
    {
      rows := rows[index := row];
    }
  }

  class Service {
    /** The API configuration of the dataset this service serves. */
    const cfg: ApiConfig
    /** The container of the dataset's data controller. */
    const container: DataContainer
    /** When the last fetch started; `None` until the first one. */
    var lastRequest: Option<int>
    var metaData: Meta
    /** The status events and collaborator calls, in order. */
    var log: seq<Effect>

    constructor (cfg: ApiConfig, container: DataContainer)
      ensures this.cfg == cfg && this.container == container
      ensures lastRequest == None && metaData == map[] && log == []
      ensures LastRequestTimestamp() == 0
    {
      this.cfg := cfg;
      this.container := container;
      lastRequest := None;
      metaData := map[];
      log := [];
    }

    /** `getLastRequestTimestamp()`: `new Date(null)` is the epoch. */
    function LastRequestTimestamp(): int
      reads this
    {
      lastRequest.GetOr(0)
    }

    /**
     * `fetchData`: record the request time, fold the stream's units into the
     * fetched rows, `metaData`, the error flag and the status events, then
     * reconcile the container with the rows.
     */
    method FetchData(url: string, query: Option<Filter>, keys: seq<Value>, updateOnly: bool, units: seq<StreamUnit>, now: int)
      returns (fetchError: bool)
      requires |keys| <= |container.rows|
      modifies this, container
      ensures lastRequest == Some(now) && LastRequestTimestamp() == now
      ensures metaData == LastMeta(units, old(metaData))
      ensures fetchError == HasError(units)
      ensures log == old(log) + FetchEffects(url, query, units)
      ensures container.rows == Reconcile.Reconciled(old(container.rows), keys, cfg.primaryKey, FetchedRows(units), updateOnly)
    {
      fetchError := false;
      lastRequest := Some(now);
      var rows: seq<Row> := [];
      log := log + [StreamRequest(url, query)];
      ghost var prefix := log;
      var i := 0;
      assert units[..0] == [];
      while i < |units|
        invariant 0 <= i <= |units|
        invariant rows == FetchedRows(units[..i])
        invariant metaData == LastMeta(units[..i], old(metaData))
        invariant fetchError == HasError(units[..i])
        invariant log == prefix + UnitEvents(units[..i])
        invariant lastRequest == Some(now) && container.rows == old(container.rows)
      {
        var u := units[i];
        FoldStep(units, i, old(metaData));
        match u {
          case DataUnit(row) =>
            rows := rows + [row];
          case MetaUnit(meta) =>
            metaData := meta;
          case LengthUnit(count) =>
            log := log + [Status(Downloading(count))];
            AppendAssoc(prefix, UnitEvents(units[..i]), [Status(Downloading(count))]);
          case ErrorUnit(message) =>
            fetchError := true;
            log := log + [Status(Error("Fetch error", Some(message)))];
            AppendAssoc(prefix, UnitEvents(units[..i]), [Status(Error("Fetch error", Some(message)))]);
        }
        i := i + 1;
      }
      assert units[..i] == units;
      assert log == old(log) + FetchEffects(url, query, units);
      if !updateOnly && |keys| == 0 {
        container.SetData(rows, true);
      } else {
        container.MergeRows(rows, keys, cfg.primaryKey);
      }
    }

    /**
     * `loadAll(query, updateOnly)`: decide the mode, clear the container or
     * capture its keys and rewrite the filter, fetch, and report.
     */
    method LoadAll(query: Option<FilterArgument>, updateOnly: bool, units: seq<StreamUnit>, now: int)
      modifies this, container
      ensures lastRequest == Some(now) && LastRequestTimestamp() == now
      ensures metaData == LastMeta(units, old(metaData))
      ensures var incremental := Incremental(updateOnly, old(lastRequest));
        && log == old(log) + LoadAllEffects(cfg, QueryUsed(cfg, query, incremental, old(LastRequestTimestamp())), units)
        && container.rows == LoadedRows(old(container.rows), cfg, incremental, units)
    {
      log := log + [ApiCallStart, Status(Connecting)];
      ghost var started := log;
      var incremental := Incremental(updateOnly, lastRequest);
      ghost var used := QueryUsed(cfg, query, incremental, LastRequestTimestamp());
      var useQuery: Option<Filter> := if query.Some? then Some(Given(query.value)) else None;
      var keys: seq<Value> := [];
      if !incremental {
        container.SetData([], false);
      } else {
        var column := ModifiedColumn(cfg);
        if column.Some? {
          useQuery := Some(ModifiedSince(query, column.value, LastRequestTimestamp()));
        }
        var all := container.rows;
        var i := 0;
        while i < |all|
          invariant 0 <= i <= |all|
          invariant |keys| == i
          invariant forall k :: 0 <= k < i ==> keys[k] == KeyOf(all[k], cfg.primaryKey)
        {
          keys := keys + [KeyOf(all[i], cfg.primaryKey)];
          i := i + 1;
        }
        assert keys == Reconcile.KeysOf(all, cfg.primaryKey);
      }
      assert useQuery == used;
      assert keys == CapturedKeys(old(container.rows), cfg.primaryKey, incremental);
      assert container.rows == Prepared(old(container.rows), incremental);
      var error := FetchData(LoadUrl(cfg), useQuery, keys, incremental, units, now);
      ghost var fetched := log;
      assert fetched == started + FetchEffects(LoadUrl(cfg), used, units);
      if !error {
        log := log + [Reload, CollectionSorted];
      }
      if !error {
        log := log + [Status(Done)];
      }
      assert log == if error then fetched else fetched + [Reload, CollectionSorted] + [Status(Done)];
      log := log + [Reselect(cfg.primaryKey)];
      log := log + [ApiCallEnd];
      log := log + [Status(Done)];
      ClosingSteps(fetched, cfg, error);
      LoadAllLog(old(log), cfg, used, units);
    }

    /**
     * `update(data)`: submit the rows and decode the progress body chunk by
     * chunk, as `UpdateOutcome` describes.
     */
    method Update(data: seq<Row>, response: Response, readMsg: string -> MsgRead) returns (result: UpdateResult)
      modifies this
      ensures log == old(log) + UpdateOutcome(cfg, data, response, readMsg).effects
      ensures result == UpdateOutcome(cfg, data, response, readMsg).result
      ensures lastRequest == old(lastRequest) && metaData == old(metaData)
    {
      log := log + [ApiCallStart];
      if |data| == 0 {
        log := log + [ApiCallEnd, Status(Done)];
        return NoChanges;
      }
      log := log + [Status(Connecting), Post(UpdateUrl(cfg), data)];
      if !response.ok || response.body.None? {
        ghost var started := log;
        assert started == old(log) + Opening(cfg, data);
        result := ReadErrorBody(response, readMsg);
        AppendAssoc(old(log), Opening(cfg, data), FailureTail(response, readMsg).effects);
        return;
      }
      var chunks := response.body.value;
      result := ReadBody(chunks, readMsg);
      assert UpdateOutcome(cfg, data, response, readMsg) == Finish(Opening(cfg, data), ReadLoop(chunks, 0, "", [], readMsg), true);
      FinishOpening(Opening(cfg, data), ReadLoop(chunks, 0, "", [], readMsg), true);
      AppendAssoc(old(log), Opening(cfg, data), Finish([], ReadLoop(chunks, 0, "", [], readMsg), true).effects);
    }

    /**
     * `update` on a failed response or one without a body: read the body as
     * JSON, report a failed response with its `msg`, then `done`.
     */
    method ReadErrorBody(response: Response, readMsg: string -> MsgRead) returns (result: UpdateResult)
      modifies this
      ensures log == old(log) + FailureTail(response, readMsg).effects
      ensures result == FailureTail(response, readMsg).result
      ensures lastRequest == old(lastRequest) && metaData == old(metaData)
    {
      var json := ErrorBody(response, readMsg);
      if json.Unparsable? {
        return Rejected;
      }
      if !response.ok {
        if json.NullValue? {
          return Rejected;
        }
        log := log + [Status(Error("Fetch error", json.msg))];
      }
      log := log + [Status(Done)];
      return Reply(false, []);
    }

    /**
     * The read loop of `update` on a readable body: chunk by chunk, report the
     * first `;`-segment and keep the last, until a chunk ends in `]` or the
     * stream is done, as `ReadLoop` describes.
     */
    method ReadBody(chunks: seq<Read>, readMsg: string -> MsgRead) returns (result: UpdateResult)
      modifies this
      ensures var o := Finish([], ReadLoop(chunks, 0, "", [], readMsg), true);
        log == old(log) + o.effects && result == o.result
      ensures lastRequest == old(lastRequest) && metaData == old(metaData)
    {
      ghost var total := ReadLoop(chunks, 0, "", [], readMsg);
      ghost var emitted: seq<Effect> := [];
      var isReading := true;
      var tempString := "";
      var returnedIds: seq<int> := [];
      var i := 0;
      while isReading
        invariant isReading ==> i <= |chunks| && returnedIds == []
        invariant log == old(log) + emitted && lastRequest == old(lastRequest) && metaData == old(metaData)
        invariant isReading ==> Pending(emitted, ReadLoop(chunks, i, tempString, [], readMsg), total)
        invariant !isReading ==> emitted == total.effects && total.end == Drained(returnedIds)
        decreases if isReading then |chunks| + 1 - i else 0
      {
        ghost var buffer := tempString;
        ghost var before := emitted;
        var read := ReadAt(chunks, i);
        var marker, stop;
        tempString, returnedIds, stop, marker := ReadChunk(tempString, returnedIds, read.value);
        if stop {
          isReading := false;
        }
        log := log + [ProgressEvent(marker)];
        emitted := emitted + [ProgressEvent(marker)];
        AppendAssoc(old(log), before, [ProgressEvent(marker)]);
        CycleStep(chunks, i, buffer, before, total, readMsg);
        if read.done {
          isReading := false;
          if |returnedIds| == 0 && tempString != "" {
            log := log + [Status(Error("Update Error", ErrorContent(readMsg(tempString))))];
            log := log + [Status(Done)];
            AbortedRead(old(log), before, AbortedRun(marker, tempString, readMsg), total);
            return Reply(false, []);
          }
        }
        i := i + 1;
      }
      log := log + [ApiCallEnd, Status(Done)];
      DrainedRead(old(log), total, returnedIds);
      return Reply(true, returnedIds);
    }
  }

  /**
   * One chunk of the read loop of `update`: append it to the buffer; on a
   * trailing `]` take the ids from the last `;`-segment and stop; keep the
   * last segment as the buffer and report the first.
   */
  method ReadChunk(buffer: string, ids: seq<int>, value: string)
    returns (kept: string, found: seq<int>, stop: bool, marker: string)
    ensures Cycle(kept, found, stop, marker) == ReadCycle(buffer, ids, value)
  {
    var tempString := buffer + value;
    found := ids;
    stop := false;
    if |tempString| > 0 && tempString[|tempString| - 1] == ']' {
      var jsonText := Text.Split(tempString, ';');
      assert jsonText[|jsonText| - 1] == Text.LastSegment(tempString, ';');
      found := JsonIds.ParseIds(jsonText[|jsonText| - 1]).GetOr(found);
      stop := true;
    }
    var tempVal := Text.Split(tempString, ';');
    kept := tempString;
    if |tempVal| > 1 {
      kept := tempVal[|tempVal| - 1];
    }
    marker := tempVal[0];
  }

  lemma AppendAssoc(a: seq<Effect>, b: seq<Effect>, c: seq<Effect>)
    ensures (a + b) + c == a + (b + c)
  {
  }

  /** The closing of `loadAll`, appended one call at a time. */
  lemma ClosingSteps(before: seq<Effect>, cfg: ApiConfig, error: bool)
    ensures before + LoadClosing(cfg, error)
      == (if error then before else before + [Reload, CollectionSorted] + [Status(Done)])
         + [Reselect(cfg.primaryKey)] + [ApiCallEnd] + [Status(Done)]
  {
  }

  /** The log of `loadAll` as its three parts are appended. */
  lemma LoadAllLog(before: seq<Effect>, cfg: ApiConfig, query: Option<Filter>, units: seq<StreamUnit>)
    ensures before + LoadAllEffects(cfg, query, units)
      == before + [ApiCallStart, Status(Connecting)] + FetchEffects(LoadUrl(cfg), query, units)
         + LoadClosing(cfg, HasError(units))
  {
  }

  /** The last cycle of an early failure: its marker, the error built from the buffer, and `done`. */
  function AbortedRun(marker: string, buffer: string, readMsg: string -> MsgRead): LoopRun {
    LoopRun([ProgressEvent(marker), Status(Error("Update Error", ErrorContent(readMsg(buffer)))), Status(Done)], Aborted)
  }

  /**
   * One cycle of the read loop, from the events emitted so far: the early
   * failure, a stop that drains the loop, or the loop going on from the next
   * read with the cycle's buffer.
   */
  lemma CycleStep(chunks: seq<Read>, i: nat, buffer: string, before: seq<Effect>, total: LoopRun, readMsg: string -> MsgRead)
    requires i <= |chunks| && Pending(before, ReadLoop(chunks, i, buffer, [], readMsg), total)
    ensures var r := ReadAt(chunks, i);
      var c := ReadCycle(buffer, [], r.value);
      var emitted := before + [ProgressEvent(c.marker)];
      && (r.done && |c.ids| == 0 && c.buffer != "" ==> Pending(before, AbortedRun(c.marker, c.buffer, readMsg), total))
      && ((r.done || c.stop) && !(r.done && |c.ids| == 0 && c.buffer != "") ==>
            emitted == total.effects && total.end == Drained(c.ids))
      && (!r.done && !c.stop ==>
            i + 1 <= |chunks| && c.ids == [] && Pending(emitted, ReadLoop(chunks, i + 1, c.buffer, [], readMsg), total))
  {
    var r := ReadAt(chunks, i);
    var c := ReadCycle(buffer, [], r.value);
    if r.done || c.stop {
      ReadLoopStops(chunks, i, buffer, readMsg);
    } else {
      ReadLoopSteps(chunks, i, buffer, readMsg);
      ReadCycleSpec(buffer, [], r.value);
      AppendAssoc(before, [ProgressEvent(c.marker)], ReadLoop(chunks, i + 1, c.buffer, c.ids, readMsg).effects);
    }
  }

  /** What the read loop has emitted so far, followed by what the loop from here emits, is the whole run. */
  ghost predicate Pending(emitted: seq<Effect>, rest: LoopRun, total: LoopRun) {
    emitted + rest.effects == total.effects && rest.end == total.end
  }

  /** The events of a finished update are the opening followed by what the read loop contributes. */
  lemma FinishOpening(opening: seq<Effect>, run: LoopRun, ok: bool)
    ensures Finish(opening, run, ok).effects == opening + Finish([], run, ok).effects
    ensures Finish(opening, run, ok).result == Finish([], run, ok).result
  {
    match run.end
    case Aborted =>
      assert [] + run.effects == run.effects;
    case Drained(ids) =>
      assert [] + run.effects + [ApiCallEnd, Status(Done)] == run.effects + [ApiCallEnd, Status(Done)];
  }

  /** The loop drains: its events, the transport end and `done`, and `update` resolves with the ids. */
  lemma DrainedRead(prior: seq<Effect>, total: LoopRun, ids: seq<int>)
    requires total.end == Drained(ids)
    ensures var o := Finish([], total, true);
      prior + o.effects == prior + total.effects + [ApiCallEnd, Status(Done)] && o.result == Reply(true, ids)
  {
    assert [] + total.effects == total.effects;
  }

  /** The early failure: the loop's events end with the error and `done`, and `update` resolves with `success` false. */
  lemma AbortedRead(prior: seq<Effect>, before: seq<Effect>, rest: LoopRun, total: LoopRun)
    requires Pending(before, rest, total) && rest.end == Aborted && |rest.effects| == 3
    ensures var o := Finish([], total, true);
      && prior + o.effects == prior + (before + [rest.effects[0]]) + [rest.effects[1]] + [rest.effects[2]]
      && o.result == Reply(false, [])
  {
    assert [] + total.effects == total.effects;
    assert rest.effects == [rest.effects[0], rest.effects[1], rest.effects[2]];
    AbortAssoc(prior, before, rest.effects[0], rest.effects[1], rest.effects[2]);
  }

  lemma AbortAssoc(a: seq<Effect>, c: seq<Effect>, x: Effect, y: Effect, z: Effect)
    ensures a + (c + [x, y, z]) == a + (c + [x]) + [y] + [z]
  {
  }
}
