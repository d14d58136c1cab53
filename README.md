# Synchronisation and streaming-update engine, modelled in Dafny

This project models the `Service` class of `src/utils/service.ts`. The class
keeps one dataset of a data controller in step with a REST back end:

- `loadAll` decides between a full reload and an incremental refresh.
- `fetchData` folds the units of the row stream into rows, metadata, an error
  flag and status events. It then merges the rows into the container by
  primary key.
- `update` posts changed rows and decodes the streamed progress response:
  `;`-separated progress markers that end in a JSON array of accepted ids, or
  a JSON error object.

The model has eight modules:

- `Wrappers`: `Option`.
- `Text`: JavaScript's `split` and `join` on one character, with their
  round trips.
- `JsonIds`: `JSON.parse` restricted to arrays of integers, and its inverse
  `FormatIds`.
- `Model`: rows, key values, the API configuration, filters, status events,
  the effect log, stream units, response reads and the results of `update`.
- `Decoder`: the whole of `update` as a function `UpdateOutcome` of its
  inputs, and the read loop as `ReadLoop`. Its lemmas count the `done`,
  error, progress and transport-end events, and characterise the loop by the
  text it has read.
- `Reconcile`: the merge-by-key, `Merge`. The lemmas describe it position by
  position with `LastMatch` and `NewRows`.
- `Fetch`: the unit fold, the query URL, the mode decision, and the effects
  and final container of `loadAll`.
- `Sync`: the classes `DataContainer` (the controller's rows) and `Service`
  (`lastRequest`, `metaData` and the effect log). Their imperative methods
  `LoadAll`, `FetchData`, `Update` and `ReadBody` (with its helpers `ReadChunk` and `ReadErrorBody`) mirror the
  source's loops and branches.
  Each method's postcondition ties it to the functions above.

Every status callback and every collaborator call is appended to one effect
log, `Service.log`, in order. Covered are `restApiCallStart`/`End`, the
`fetch` POST, `fetchStreamData`, `reloadDatasource`, the `collection-sorted`
notification and the re-selection.

Inputs that the program gets from the outside are parameters of the model:

- the reads of the response body, as a sequence of `(value, done)` pairs;
- `response.ok`, and whether there is a body;
- how `JSON.parse` reads the `msg` of an error payload, as a function
  `readMsg`;
- the units `fetchStreamData` delivers;
- the current time, `now`.

Behaviour of `service.ts` worth knowing, which the model reproduces:

- The read loop emits one `info` event per read, the reading that carries the
  closing `]` included. It reports only the first `;`-segment of that read.
  So the chunks `"updated:5;"` then `"[7,8]"` give two `info` events, not
  one (`Decoder.UpdateTwoChunks`). They are `updated :updated:5` and
  `updated :[7,8]`. Markers beyond the first in one read are never reported.
- When the stream ends without a trailing `]` and the buffer is empty,
  `update` does not report an error. It falls through to
  `{success: true, data: []}` (`Decoder.UpdateStreamEndsEarly`).
- Incremental mode needs only `updateOnly === true` and an earlier request.
  Nothing checks that the container has rows.
- `update` does not call `restApiCallEnd` on its failure paths
  (`Decoder.UpdateTransportEnd`).

## Model

| member | source | states |
|---|---|---|
| Sync.DataContainer.SetData | src/utils/service.ts:62-64 | `setData(rows, append)`: with `append` the rows are added after the old ones; otherwise they replace them (`setData([])` clears). |
| Sync.DataContainer.Replace | src/utils/service.ts:305 | `replace([row], index, 1)` changes the row at `index` and nothing else. |
| Sync.DataContainer.MergeRows | src/utils/service.ts:301-309 | The per-row loop over the fetched rows leaves the container equal to `Reconcile.Merge` of the old rows. |
| Sync.Service.constructor | src/utils/service.ts:19-23 | A new service has no last request, empty metadata and an empty log, and `LastRequestTimestamp` reads 0. |
| Sync.Service.LastRequestTimestamp | src/utils/service.ts:47-49 | Defines `getLastRequestTimestamp()`: the stored time, or 0 (`new Date(null)` is the epoch) before any request. `Sync.Service.constructor` ensures it reads 0 on a new service; `Sync.Service.FetchData` and `Sync.Service.LoadAll` ensure it reads `now` afterwards, and `LoadAll` passes the earlier reading to the filter. |
| Sync.Service.FetchData | src/utils/service.ts:253-313 | Sets `lastRequest` to now. Sets `metaData` to the last `meta` payload. Returns whether an `error` unit came. Appends the stream request and the fold's events. Leaves the container as `Reconciled`: bulk append, or the per-row merge. |
| Sync.Service.LoadAll | src/utils/service.ts:51-105 | Chooses the mode with `Incremental`. Clears the container or captures its keys in order. Rewrites the filter when a modified column is set. Leaves `lastRequest` non-null. Its log is `LoadAllEffects` and its container `LoadedRows`. |
| Sync.Service.Update | src/utils/service.ts:112-251 | The log grows by exactly the events of `UpdateOutcome`, and the result is its result. `lastRequest` and `metaData` are unchanged. |
| Sync.Service.ReadBody | src/utils/service.ts:159-241 | The `while (isReading)` loop and the success return. The log grows by the read loop's events, then the transport end and `done` (or by the error and `done` on the early failure). The result is the `Finish` of `ReadLoop` from an empty buffer. |
| Sync.ReadChunk | src/utils/service.ts:170-199 | One pass of the loop body computes exactly `ReadCycle`: the new buffer, the ids, whether to stop, and the reported marker. |
| Sync.Service.ReadErrorBody | src/utils/service.ts:136-157 | The failure branch of `update`: the log grows by exactly `FailureTail`'s effects and the result is its result; `lastRequest` and `metaData` are unchanged. |
| Sync.CycleStep | src/utils/service.ts:196-231 | After one cycle, the events emitted so far plus the loop from the next read are the whole run. The run either drains with the cycle's ids or aborts with the error and `done`. |
| Decoder.UpdateOutcome | src/utils/service.ts:112-251 | Defines what `update(data)` emits and resolves to: "no changes" without rows, the failure tail on a failed response or a missing body, otherwise `Finish` of the read loop. `UpdateOneDone`, `UpdateTransportEnd`, `UpdateSuccess` and `UpdateDecodesIds` state its properties. |
| Decoder.Opening | src/utils/service.ts:113-134 | Defines what `update` emits before the response with rows to send: the transport start, the connecting event and the POST of the rows. `Decoder.UpdateWithoutRows` states that the POST comes third, and only with rows. |
| Decoder.UpdateUrl | src/utils/service.ts:121-123 | Defines the POST target: the update prefix, the api name, `?` and the empty string an empty `URLSearchParams` writes. |
| Decoder.ErrorBody | src/utils/service.ts:137 | Defines `response.json()` on the failure path: the body text up to the first `done`, with a null body read as the empty text, which never parses. `Decoder.CountWithoutStream` states that an ok response without a body and any empty body reject. |
| Decoder.BodyText | src/utils/service.ts:137 | Defines the text `response.json()` reads: the values of the reads up to and including the first `done`. |
| Decoder.FailureTail | src/utils/service.ts:136-157 | Defines the rest of `update` after the POST on that path: reject, or the error event on a failed response, then `done` and `{success: false, data: []}`. `CountWithoutStream` states its counts. |
| Decoder.ReadLoop | src/utils/service.ts:164-232 | Defines the `while (isReading)` loop from read `i`: one progress event per cycle, stop on a trailing `]` or at `done`, and the error and `done` when the stream ends with unparsed text and no ids. `LoopByText`, `LoopCounts` and `FirstStop` characterise it. |
| Decoder.EndsWithBracket | src/utils/service.ts:174-175 | Defines the terminator test: the last character of the text is `]`. `Decoder.ReadCycleSpec` states that a cycle stops exactly when it holds. |
| Decoder.ProgressEvent | src/utils/service.ts:196-200 | Defines the `info` event of one cycle, headed "Updating", with content `updated :` followed by the marker. `Decoder.LoopByText` states which marker each cycle reports. |
| Decoder.ReadCycle | src/utils/service.ts:170-199 | Defines one pass of the loop body: append the chunk, parse the last `;`-segment on a trailing `]`, keep the last segment, report the first. `ReadCycleSpec` and `ReadCycleSegments` state its meaning. |
| Decoder.Finish | src/utils/service.ts:234-241 | Defines the end of `update` after the loop: the early failure adds nothing, a drained loop adds the transport end and `done` and resolves with the ids. `CountWithStream` states its counts. |
| Decoder.ReadAt | src/utils/service.ts:170-171 | Defines `reader.read()`: the given read, or `{value: undefined, done: true}` once the stream has run out, with `undefined` appended as "". `Decoder.FirstStop` relies on it to show that the loop always stops. |
| Decoder.ReadCycleSpec | src/utils/service.ts:171-199 | A cycle stops exactly when the text ends in `]`. Only then do the ids change: to the parse of the last `;`-segment, or kept when that parse fails. The buffer becomes the last segment and the marker is the first. |
| Decoder.ReadCycleSegments | src/utils/service.ts:189-194 | The kept buffer holds no `;` and is exactly the text after the last `;`. The marker is the text before the first `;`. |
| Decoder.ErrorContent | src/utils/service.ts:206-221 | Defines the content of the end-of-stream error: the payload's `msg`, or "unknown error" when `JSON.parse` throws or `.msg` is read on `null`. `Decoder.UpdateStreamEndsEarly` states where that event lands. |
| Decoder.FirstStop | src/utils/service.ts:168-203 | The loop ends at the first read that is `done` or after which the text ends in `]`; such a read always exists. |
| Decoder.LoopByText | src/utils/service.ts:164-232 | The loop emits one `updated :` event per read up to the stopping one. Each event carries the text before the first `;` of what that read holds. The loop ends as `EndAt` says and, on the early failure, closes with the error and `done`. |
| Decoder.LoopCounts | src/utils/service.ts:164-232 | There is one progress event per cycle up to the stop. `done` and an error come only on the early failure, and then `done` is last. |
| Decoder.UpdateWithoutRows | src/utils/service.ts:113-115 | Without rows: no request, the transport start and end, one `done`, and "no changes". "no changes" comes only without rows; with rows the third effect is the POST. |
| Decoder.CountWithoutRows | src/utils/service.ts:242-250 | Without rows exactly one `done` and one transport end are emitted, and nothing else is counted. |
| Decoder.CountWithoutStream | src/utils/service.ts:136-157 | A failed response or one without a body: a body `JSON.parse` cannot read, or a `null` error payload, rejects, and so do a successful response without a body and any empty body. Otherwise there is an error event exactly when `ok` is false, then one `done`, and the result is `{success: false, data: []}`. |
| Decoder.UpdateReadsStream | src/utils/service.ts:159-168 | With rows and a readable body, `update` runs the read loop from the start of the text with an empty buffer and no ids. |
| Decoder.CountWithStream | src/utils/service.ts:164-241 | A readable body resolves with the ids when the loop drains and with `success` false on the early failure. The counts are the loop's, plus the transport end and `done` when it drains, and `done` is last. |
| Decoder.UpdateOneDone | src/utils/service.ts:149-156 | Every return of `update` emits exactly one `done`, as its last event. A rejected read of the error body emits none. Covers lines 149-156, 222-228 and 235-249. |
| Decoder.UpdateTransportEnd | src/utils/service.ts:234-249 | The transport end is emitted once on success and on "no changes", never on a failure. |
| Decoder.UpdateSuccess | src/utils/service.ts:136-241 | `success` true implies `ok`, a body and rows. A failure carries no ids. On a readable body, `success` holds exactly when the loop drains. |
| Decoder.MarkedIdsText | src/utils/service.ts:174-180 | A text of `;`-free markers followed by an id array ends in `]`. Its last segment is that array, which parses back to the ids. |
| Decoder.LoopDecodesIds | src/utils/service.ts:168-200 | Such a text, read in full by cycle `j`, stops there with the ids and `j + 1` progress events. |
| Decoder.UpdateDecodesIds | src/utils/service.ts:164-241 | With rows, `update` on such a body resolves `{success: true, data: ids}` after `j + 1` progress events. |
| Decoder.UpdateTwoChunks | src/utils/service.ts:164-241 | The chunks `"updated:5;"` and `"[7,8]"` give the opening, then `updated :updated:5` and `updated :[7,8]`, then the transport end and `done`, and the result `{success: true, data: [7,8]}`. |
| Decoder.UpdateStreamEndsEarly | src/utils/service.ts:202-241 | A stream that ends before the text ends in `]`: with text left in the buffer, exactly one error event (the `msg` of that text), second to last, and `success` false. With nothing left, `success` true and no ids. |
| Text.Split | src/utils/service.ts:189 | `split(";")` gives at least one segment, none of which holds the separator. |
| Text.LastSegment | src/utils/service.ts:180 | Defines `split(sep).pop()`, also used at line 193. `Decoder.ReadCycleSegments` states that it is exactly the text after the last separator. |
| Text.JoinSplit | src/utils/service.ts:189-193 | Joining the segments of a split gives back the text. |
| Text.SplitJoin | src/utils/service.ts:189-193 | Splitting a join of separator-free parts gives back the parts. |
| JsonIds.ParseIds | src/utils/service.ts:180 | A successful parse means the trimmed text is bracketed. |
| JsonIds.IdsRoundTrip | src/utils/service.ts:180 | Parsing an id array as `FormatIds` writes it gives the ids back, as exact integers (see "## Left out" on number precision). |
| Model.ModifiedColumn | src/utils/service.ts:66-67 | Defines the truthiness test `if (modifiedColumn)`: the column when configured and not empty. `Fetch.QueryUsedSpec` states when it leads to the filter being rewritten. |
| Model.KeyOf | src/utils/service.ts:73 | Defines `row[primaryKey]`: the field's value, or `undefined` when the row lacks it. Also read at line 303. `KeysOf` and `SlotInCapturedKeys` use it. |
| Reconcile.IndexOf | src/utils/service.ts:303 | `indexOf` is -1 exactly when the key is absent; otherwise it is the position of the first occurrence. |
| Reconcile.KeysOf | src/utils/service.ts:71-74 | Defines the `primaryKeys` array: the rows' keys, one per row, in container order. `Reconcile.SlotInCapturedKeys` states what a lookup in it finds; `Sync.Service.LoadAll`'s key loop is proved to build it. |
| Reconcile.Merge | src/utils/service.ts:301-309 | The per-row path never shortens the container. |
| Reconcile.Slot | src/utils/service.ts:303 | Defines `primaryKeys.indexOf(row[primaryKey])`. `IndexOf` states what it finds. |
| Reconcile.Apply | src/utils/service.ts:303-308 | Defines one step of the `forEach`: replace the row at the slot, or append. `ApplyFoundIdempotent` and `ApplyNewTwice` state its behaviour. |
| Reconcile.Reconciled | src/utils/service.ts:298-310 | Defines the container after the fetch: the bulk append when not incremental and no keys were captured, otherwise the per-row merge. `ReconciledIsMerge` shows both paths agree. |
| Reconcile.MergeSpec | src/utils/service.ts:300-309 | Position by position: an old row is replaced by the last fetched row whose key was first captured there, and is otherwise kept. The rows whose key was not captured follow, in arrival order. The length grows by their number. |
| Reconcile.LastMatchSpec | src/utils/service.ts:303-305 | A position is replaced exactly when some fetched row's key was first captured there. The replacing row is such a row, and no later fetched row maps there, so it is the last one. |
| Reconcile.MergeKeepsUnmatched | src/utils/service.ts:304-305 | A position no fetched row maps to keeps its row. |
| Reconcile.NewRowsSpec | src/utils/service.ts:306-307 | The appended rows are fetched rows with uncaptured keys, and every such row is appended. |
| Reconcile.NewRowsExtremes | src/utils/service.ts:301-309 | All keys new: every fetched row is appended. All keys captured: nothing is appended. |
| Reconcile.NewRowsAllFound | src/utils/service.ts:304-305 | When every fetched key was captured, no row is appended. |
| Reconcile.NewRowsAllNew | src/utils/service.ts:306-307 | When no fetched key was captured, all fetched rows are appended in order. |
| Reconcile.MergeWithoutKeys | src/utils/service.ts:298-309 | With no captured keys the per-row path is the bulk append. |
| Reconcile.ReconciledIsMerge | src/utils/service.ts:298-310 | Both reconciliation paths agree: the container always ends as the per-row merge. |
| Reconcile.ApplyFoundIdempotent | src/utils/service.ts:303-305 | Replaying a row whose key was captured changes nothing more. |
| Reconcile.ApplyNewTwice | src/utils/service.ts:306-307 | Two rows with the same uncaptured key are both appended, in order. |
| Reconcile.ReplaceKeepsPosition | src/utils/service.ts:300-309 | Rows keyed 1 and 2, refreshed with a row keyed 2: the first is kept and the second replaced in place. |
| Reconcile.SlotInCapturedKeys | src/utils/service.ts:71-74 | With keys captured from the container, a fetched row replaces the first row with its key. It is appended only when its key is nowhere in the container. Covers lines 71-74 and 303. |
| Fetch.UnitEffects | src/utils/service.ts:276-294 | Defines the status event of one unit: the downloading event for `length`, the fetch error for `error`, none otherwise. `Fetch.FoldStep` and `Fetch.UnitEventsCounts` state its share of the fold. |
| Fetch.FetchEffects | src/utils/service.ts:267-295 | Defines what `fetchData` emits: the request to the row stream, then the fold's events. `Sync.Service.FetchData` is proved to emit it. |
| Fetch.FetchedRows | src/utils/service.ts:267-270 | Defines the `rows` array the callback fills: the `data` payloads in arrival order. `FetchedRowsAppend` and `FetchedRowsMembers` state its meaning. |
| Fetch.LastMeta | src/utils/service.ts:272-274 | Defines `metaData` after the fold. `LastMetaSpec` states it is the last `meta` payload. |
| Fetch.HasError | src/utils/service.ts:263-295 | Defines `fetchError` after the fold. `HasErrorSpec` states when it holds. |
| Fetch.UnitEvents | src/utils/service.ts:276-294 | Defines the status events of the fold, in arrival order. `UnitEventsCounts` counts them. |
| Fetch.FoldStep | src/utils/service.ts:267-295 | One more unit adds its row, replaces the metadata, sets the error flag, or adds its event, and leaves the rest of the fold as it was. |
| Fetch.FetchedRowsAppend | src/utils/service.ts:268-270 | The rows of two runs of units are the first run's rows, then the second's. |
| Fetch.FetchedRowsMembers | src/utils/service.ts:268-270 | A row is fetched exactly when some `data` unit carries it. |
| Fetch.FoldContinuesAfterError | src/utils/service.ts:287-294 | An `error` unit sets the flag and does not stop the fold: the rows before and after it are all kept. |
| Fetch.LastMetaSpec | src/utils/service.ts:272-274 | `metaData` is the last `meta` payload, or unchanged when there is none. |
| Fetch.HasErrorSpec | src/utils/service.ts:263-288 | `fetchError` holds exactly when some unit is an `error`, and then the error count is positive. |
| Fetch.UnitEventsCounts | src/utils/service.ts:276-294 | The fold emits one error event per `error` unit and no `done`. |
| Fetch.QueryParams | src/utils/service.ts:26-31 | Defines what `URLSearchParams.toString()` writes: `rows=0`, then `meta=1` when only metadata is asked for. `Fetch.QueryUrlSplit` states how it splits at `&`. |
| Fetch.QueryUrl | src/utils/service.ts:25-34 | Defines `generateQueryUrlParams`. `QueryUrlSplit` states how the URL takes apart. |
| Fetch.LoadUrl | src/utils/service.ts:78 | Defines the URL `loadAll` passes: the query prefix and the api name, without `meta=1`. |
| Fetch.Incremental | src/utils/service.ts:59 | Defines the mode: incremental exactly when `updateOnly` is `true` and `lastRequest` is set. |
| Fetch.QueryUsed | src/utils/service.ts:60-69 | Defines the filter passed on: rewritten to "modified since" in incremental mode with a modified column, otherwise the caller's own. |
| Fetch.QueryUsedSpec | src/utils/service.ts:59-69 | The filter is rewritten to "modified since" the earlier request exactly when `updateOnly` is true, an earlier request was made and a non-empty modified column is configured. It then uses that column; otherwise the caller's filter, or none, is passed on. |
| Fetch.QueryUrlSplit | src/utils/service.ts:25-34 | The URL is the base URL, `?`, then `rows=0`, and `meta=1` only when asked. The parameters come apart again after the last `?`. |
| Fetch.CapturedKeys | src/utils/service.ts:62-75 | No more keys are captured than the container has rows. |
| Fetch.Prepared | src/utils/service.ts:62-64 | Defines the container before the fetch: cleared by `setData([])` in full mode, kept in incremental mode. `Fetch.LoadAllFull` and `Fetch.LoadAllIncremental` state the result per mode. |
| Fetch.LoadedRows | src/utils/service.ts:62-75 | Defines the container after `loadAll`: the prepared container reconciled with the fetched rows over the captured keys. Covers lines 62-75 and 298-310. `LoadAllFull` and `LoadAllIncremental` state it per mode. |
| Fetch.LoadClosing | src/utils/service.ts:84-104 | Defines the effects after the fetch: reload, the sort notification and `done` only without an error, then re-selection, the transport end and `done`. |
| Fetch.LoadAllEffects | src/utils/service.ts:51-105 | Defines everything `loadAll` emits: the transport start, the connecting event, the fetch and its fold, then the closing part. `LoadAllDoneCount` counts it. |
| Fetch.LoadAllFull | src/utils/service.ts:62-64 | In full mode the container ends as exactly the fetched rows, in arrival order. Covers lines 62-64 and 298-299. |
| Fetch.LoadAllIncremental | src/utils/service.ts:65-75 | In incremental mode the container ends as the positional merge over its own keys. Covers lines 65-75 and 300-309. |
| Fetch.LoadAllDoneCount | src/utils/service.ts:84-104 | `loadAll` emits `done` twice on success and once after a fetch error, the last effect being `done`. It emits one error event per `error` unit. |
| Fetch.CountLoadClosing | src/utils/service.ts:84-104 | The closing part holds `done` twice without an error and once with one, no error events, and ends with `done`. |

## Left out

- The network, authentication and byte decoding are inputs. This covers `fetch`, `getAccessToken`, `TextDecoderStream` and `reader.read()`. The body is a given sequence of reads, and `response.ok` and the presence of a body are given flags.
- `fetchStreamData` is not part of this model. Only its callback output is modelled, as a sequence of typed units.
- `JSON.parse` is modelled only for arrays of integers: no fractions, exponents, strings or nested values. Anything else that ends in `]` is treated as a failed parse, which keeps the old ids. How the `msg` of an error payload reads is a parameter: unparsable, `null`, or a (possibly missing) `msg`.
- JsonIds.IdsRoundTrip: ids and numeric keys are exact integers in the model. In the program they are JavaScript numbers, so an id beyond 2^53 comes back rounded (`[9007199254740993]` parses as `[9007199254740992]`), and the round trip holds there only for ids of magnitude at most 2^53. Fractional keys and `NaN` are not modelled either; a `NaN` key is never found by `indexOf`, so its row would always be appended.
- `response.json()` on a failed response reads the whole body: the values of the reads up to the first `done`. A body it cannot parse, or a `null` payload read at line 144, makes the promise reject. A null body reads as the empty text. The empty text never parses, so a successful response without a body, and any failed response with an empty body, always rejects. The model says only that the result is `Rejected`; the exception itself is not modelled.
- The clock is a parameter of `FetchData` and `LoadAll`. The row-count text of the `length` event holds a `performance.now()` reading, so the model keeps only the count.
- `getModifiedFilter` is symbolic: `ModifiedSince(query, column, since)` records when and with what it is called.
- `getApiConfig`, `getDataControllerByName` and `httpApiConfig` are the `ApiConfig` value. `reloadDatasource`, `__callSubscribers`, `reSelectCurrentEntityAndRefreshDs` and `restApiCallStart`/`End` appear only as effects in the log.
- `controller.dataSource` (lines 64 and 71) and `controller.dataContainer` (line 297) are modelled as one container of rows.
- The `updateOnly` argument and `data` of `update` are typed. A truthy non-boolean `updateOnly` or a `null` `data` is not modelled; `null` data would behave as an empty array.
- Sync.DataContainer.MergeRows: requires no more captured keys than the container has rows. `loadAll` always meets this, since it captures the keys from the container itself. A caller of `fetchData` with a longer key list could make `replace` write past the end, which is not modelled.
- Sync.Service.FetchData: carries the same requirement on its `keys`, for the same reason.
- Sync.Service.ReadBody: sets `isReading` to false after the cycle, from the stop flag `ReadChunk` returns, rather than inside the `]` branch. The state after the cycle is the same.
- Overlapping calls and other concurrency are not modelled; each call runs alone.
- `src/components/DropDownDialog.tsx` is not part of this model: it is user-interface code.
