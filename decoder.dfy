/**
 * The mutation pipeline of `Service.update` as a function of its inputs: the
 * rows to submit, the response (its `ok` flag and the body as a sequence of
 * chunks) and how `JSON.parse` reads the `msg` of an error payload. The body is
 * `;`-separated progress markers ending in a JSON array of accepted ids, or a
 * JSON error object; the read loop decodes it chunk by chunk.
 */
module Decoder {
  import opened Wrappers
  import opened Model
  import Text
  import JsonIds

  /** The `i`-th read; a stream that has run out answers `{value: undefined, done: true}`. */
  function ReadAt(chunks: seq<Read>, i: nat): Read {
    if i < |chunks| then chunks[i] else Read("", true)
  }

  /** The decoder's terminator test: the last character is `]`. */
  predicate EndsWithBracket(s: string) {
    |s| > 0 && s[|s| - 1] == ']'
  }

  /** The decoder state after one read cycle, before the `done` test, and the marker it reports. */
  datatype Cycle = Cycle(buffer: string, ids: seq<int>, stop: bool, marker: string)

  /**
   * One read cycle: append the chunk; on a trailing `]` parse the last
   * `;`-segment as the id array (keeping the old ids when that fails) and stop;
   * keep only the last segment; report the first segment.
   */
  function ReadCycle(buffer: string, ids: seq<int>, value: string): Cycle {
    var text := buffer + value;
    var found := if EndsWithBracket(text) then JsonIds.ParseIds(Text.LastSegment(text, ';')).GetOr(ids) else ids;
    var parts := Text.Split(text, ';');
    var kept := if |parts| > 1 then parts[|parts| - 1] else text;
    Cycle(kept, found, EndsWithBracket(text), parts[0])
  }

  /**
   * A cycle stops exactly on a trailing `]`; only then do the ids change, to
   * the parse of the last segment when it succeeds; the buffer becomes the
   * last segment and the reported marker is the first.
   */
  lemma ReadCycleSpec(buffer: string, ids: seq<int>, value: string)
    ensures var c := ReadCycle(buffer, ids, value);
      var text := buffer + value;
      && (c.stop <==> EndsWithBracket(text))
      && (!c.stop ==> c.ids == ids)
      && (c.stop ==> c.ids == JsonIds.ParseIds(Text.LastSegment(text, ';')).GetOr(ids))
      && c.buffer == Text.LastSegment(text, ';')
      && c.marker == Text.Split(text, ';')[0]
  {
    Text.JoinSplit(buffer + value, ';');
  }

  /**
   * The kept buffer is the text after the last `;`, so it holds no `;`, and
   * nothing but completed markers is dropped; the reported marker is the text
   * before the first `;`.
   */
  lemma ReadCycleSegments(buffer: string, ids: seq<int>, value: string)
    ensures var c := ReadCycle(buffer, ids, value);
      && ';' !in c.buffer
      && Text.IsLastSegment(c.buffer, buffer + value, ';')
      && Text.IsFirstSegment(c.marker, buffer + value, ';')
  {
    ReadCycleSpec(buffer, ids, value);
    Text.LastSegmentOfSplit(buffer + value, ';');
    Text.FirstSegmentOfSplit(buffer + value, ';');
  }

  /** The text of the error event at the end of the stream: `result.msg`, or "unknown error" when reading it throws. */
  function ErrorContent(m: MsgRead): Option<string> {
    match m
    case Parsed(msg) => msg
    case _ => Some("unknown error")
  }

  /** How the read loop ends: it stops with the ids read so far, or returns the failure early. */
  datatype LoopEnd = Drained(ids: seq<int>) | Aborted

  datatype LoopRun = LoopRun(effects: seq<Effect>, end: LoopEnd)

  function ProgressEvent(marker: string): Effect {
    Status(Info("Updating", "updated :" + marker))
  }

  /** The read loop of `update` from read `i` on, with the buffer and the ids so far. */
  function ReadLoop(chunks: seq<Read>, i: nat, buffer: string, ids: seq<int>, readMsg: string -> MsgRead): LoopRun
    requires i <= |chunks|
    decreases |chunks| - i
  {
    var r := ReadAt(chunks, i);
    var c := ReadCycle(buffer, ids, r.value);
    var info := ProgressEvent(c.marker);
    if r.done then
      if |c.ids| == 0 && c.buffer != "" then
        LoopRun([info, Status(Error("Update Error", ErrorContent(readMsg(c.buffer)))), Status(Done)], Aborted)
      else
        LoopRun([info], Drained(c.ids))
    else if c.stop then
      LoopRun([info], Drained(c.ids))
    else
      var rest := ReadLoop(chunks, i + 1, c.buffer, c.ids, readMsg);
      LoopRun([info] + rest.effects, rest.end)
  }

  /** The whole body, as `response.json()` reads it: the values up to the first `done`. */
  function BodyText(chunks: seq<Read>): string
    decreases |chunks|
  {
    if chunks == [] then ""
    else chunks[0].value + (if chunks[0].done then "" else BodyText(chunks[1..]))
  }

  /**
   * `response.json()` on a failed response or one without a body: the body
   * text as `readMsg` reads it; a null body reads as the empty text, and
   * `JSON.parse` never accepts the empty text.
   */
  function ErrorBody(response: Response, readMsg: string -> MsgRead): MsgRead {
    var text := if response.body.Some? then BodyText(response.body.value) else "";
    if text == "" then Unparsable else readMsg(text)
  }

  /** The update endpoint: the prefix, the api name and an empty query string. */
  function UpdateUrl(cfg: ApiConfig): string {
    cfg.updateUrl + cfg.apiName + "?"
  }

  datatype Outcome = Outcome(effects: seq<Effect>, result: UpdateResult)

  /** What `update(data)` emits and resolves to. */
  function UpdateOutcome(cfg: ApiConfig, data: seq<Row>, response: Response, readMsg: string -> MsgRead): Outcome {
    if |data| == 0 then
      Outcome([ApiCallStart, ApiCallEnd, Status(Done)], NoChanges)
    else
      var opening := Opening(cfg, data);
      if !response.ok || response.body.None? then
        var tail := FailureTail(response, readMsg);
        Outcome(opening + tail.effects, tail.result)
      else
        Finish(opening, ReadLoop(response.body.value, 0, "", [], readMsg), response.ok)
  }

  /**
   * The rest of `update` on a failed response or one without a body: reading
   * the body rejects when it does not parse, or when a failed response carries
   * `null`; otherwise the failure is reported and `update` resolves unsuccessfully.
   */
  function FailureTail(response: Response, readMsg: string -> MsgRead): Outcome {
    var json := ErrorBody(response, readMsg);
    if json.Unparsable? || (!response.ok && json.NullValue?) then
      Outcome([], Rejected)
    else if !response.ok then
      Outcome([Status(Error("Fetch error", json.msg)), Status(Done)], Reply(false, []))
    else
      Outcome([Status(Done)], Reply(false, []))
  }

  /** After the read loop: the early failure resolves with nothing more, a drained loop closes the transport and resolves with the ids. */
  function Finish(opening: seq<Effect>, run: LoopRun, ok: bool): Outcome {
    match run.end
    case Aborted => Outcome(opening + run.effects, Reply(false, []))
    case Drained(ids) => Outcome(opening + run.effects + [ApiCallEnd, Status(Done)], Reply(ok, ids))
  }

  // ---------------------------------------------------------------- counting events

  /** The kinds of event the properties below count. */
  datatype Kind = DoneKind | ErrorKind | ProgressKind | TransportEndKind

  predicate Is(e: Effect, k: Kind) {
    match k
    case DoneKind => e == Status(Done)
    case ErrorKind => e.Status? && e.event.Error?
    case ProgressKind => e.Status? && e.event.Info? && e.event.header == "Updating"
    case TransportEndKind => e == ApiCallEnd
  }

  /** The number of events of kind `k` in `s`. */
  function Count(s: seq<Effect>, k: Kind): (n: nat)
    ensures n <= |s|
    decreases |s|
  {
    if s == [] then 0 else (if Is(s[0], k) then 1 else 0) + Count(s[1..], k)
  }

  lemma {:induction false} CountAppend(s: seq<Effect>, t: seq<Effect>, k: Kind)
    ensures Count(s + t, k) == Count(s, k) + Count(t, k)
    decreases |s|
  {
    if s != [] {
      assert (s + t)[0] == s[0];
      assert (s + t)[1..] == s[1..] + t;
      CountAppend(s[1..], t, k);
    } else {
      assert s + t == t;
    }
  }

  lemma CountCons(e: Effect, s: seq<Effect>, k: Kind)
    ensures Count([e] + s, k) == (if Is(e, k) then 1 else 0) + Count(s, k)
  {
    assert ([e] + s)[1..] == s;
  }

  lemma CountThree(a: Effect, b: Effect, c: Effect, k: Kind)
    ensures Count([a, b, c], k) == (if Is(a, k) then 1 else 0) + (if Is(b, k) then 1 else 0) + (if Is(c, k) then 1 else 0)
  {
    assert [a, b, c][1..] == [b, c];
    assert [b, c][1..] == [c];
    assert [c][1..] == [];
    assert Count([c], k) == (if Is(c, k) then 1 else 0) + Count([], k);
    assert Count([b, c], k) == (if Is(b, k) then 1 else 0) + Count([c], k);
  }

  /** The events `update` emits before it reads the response. */
  function Opening(cfg: ApiConfig, data: seq<Row>): seq<Effect> {
    [ApiCallStart, Status(Connecting), Post(UpdateUrl(cfg), data)]
  }

  lemma CountOpening(cfg: ApiConfig, data: seq<Row>)
    ensures Count(Opening(cfg, data), DoneKind) == 0
    ensures Count(Opening(cfg, data), ErrorKind) == 0
    ensures Count(Opening(cfg, data), ProgressKind) == 0
    ensures Count(Opening(cfg, data), TransportEndKind) == 0
  {
    var st := Status(Connecting);
    var post := Post(UpdateUrl(cfg), data);
    CountThree(ApiCallStart, st, post, DoneKind);
    CountThree(ApiCallStart, st, post, ErrorKind);
    CountThree(ApiCallStart, st, post, ProgressKind);
    CountThree(ApiCallStart, st, post, TransportEndKind);
  }


  // ---------------------------------------------------------------- properties of the read loop

  /** The text of the first `k` reads. */
  function Consumed(chunks: seq<Read>, k: nat): string
    decreases k
  {
    if k == 0 then "" else Consumed(chunks, k - 1) + ReadAt(chunks, k - 1).value
  }

  /** Cycle `j` ends the loop: its read is the last one, or the text so far ends in `]`. */
  predicate StopsAt(chunks: seq<Read>, j: nat) {
    ReadAt(chunks, j).done || EndsWithBracket(Consumed(chunks, j + 1))
  }

  /** The marker cycle `k` reports: the text before the first `;` of what it holds. */
  function Marker(chunks: seq<Read>, k: nat): string {
    Text.Split(Text.LastSegment(Consumed(chunks, k), ';') + ReadAt(chunks, k).value, ';')[0]
  }

  /** How the loop ends when it stops in cycle `j`, in terms of the text read by then. */
  function EndAt(chunks: seq<Read>, j: nat): LoopEnd {
    var text := Consumed(chunks, j + 1);
    var ids := if EndsWithBracket(text) then JsonIds.ParseIds(Text.LastSegment(text, ';')).GetOr([]) else [];
    if ReadAt(chunks, j).done && |ids| == 0 && Text.LastSegment(text, ';') != "" then Aborted else Drained(ids)
  }

  /** The terminator test on the kept segment plus a chunk is the test on the whole text plus the chunk. */
  lemma BracketOfLastSegment(s: string, v: string)
    ensures EndsWithBracket(Text.LastSegment(s, ';') + v) == EndsWithBracket(s + v)
  {
    var t := Text.LastSegment(s, ';');
    Text.LastSegmentOfSplit(s, ';');
    if v == [] {
      assert t + v == t && s + v == s;
      if t != [] {
        assert t[|t| - 1] == s[|s| - 1];
      }
    } else {
      assert (t + v)[|t + v| - 1] == v[|v| - 1] == (s + v)[|s + v| - 1];
    }
  }

  /** The read loop started in cycle `k` on the retained segment of the text consumed and no ids. */
  function LoopFrom(chunks: seq<Read>, k: nat, readMsg: string -> MsgRead): LoopRun
    requires k <= |chunks|
  {
    ReadLoop(chunks, k, Text.LastSegment(Consumed(chunks, k), ';'), [], readMsg)
  }

  /** A cycle that stops: its marker, then the error and `done` on the early failure. */
  lemma ReadLoopStops(chunks: seq<Read>, i: nat, buffer: string, readMsg: string -> MsgRead)
    requires i <= |chunks|
    requires var c := ReadCycle(buffer, [], ReadAt(chunks, i).value); ReadAt(chunks, i).done || c.stop
    ensures var c := ReadCycle(buffer, [], ReadAt(chunks, i).value);
      var info := ProgressEvent(c.marker);
      ReadLoop(chunks, i, buffer, [], readMsg)
        == if ReadAt(chunks, i).done && |c.ids| == 0 && c.buffer != ""
           then LoopRun([info, Status(Error("Update Error", ErrorContent(readMsg(c.buffer)))), Status(Done)], Aborted)
           else LoopRun([info], Drained(c.ids))
  {
  }

  /** A cycle that does not stop: its marker, then the loop from the next read on the new buffer. */
  lemma ReadLoopSteps(chunks: seq<Read>, i: nat, buffer: string, readMsg: string -> MsgRead)
    requires i <= |chunks|
    requires var c := ReadCycle(buffer, [], ReadAt(chunks, i).value); !ReadAt(chunks, i).done && !c.stop
    ensures i + 1 <= |chunks|
    ensures var c := ReadCycle(buffer, [], ReadAt(chunks, i).value);
      var rest := ReadLoop(chunks, i + 1, c.buffer, c.ids, readMsg);
      ReadLoop(chunks, i, buffer, [], readMsg) == LoopRun([ProgressEvent(c.marker)] + rest.effects, rest.end)
  {
  }

  /** The runs of the loop from each cycle, as one function of the cycle. */
  function RunsFrom(chunks: seq<Read>, readMsg: string -> MsgRead): nat -> LoopRun {
    (k: nat) => if k <= |chunks| then LoopFrom(chunks, k, readMsg) else LoopRun([], Aborted)
  }

  /** The progress event of each cycle, as one function of the cycle. */
  function MarkerEvents(chunks: seq<Read>): nat -> Effect {
    (k: nat) => ProgressEvent(Marker(chunks, k))
  }

  /** A cycle that does not stop reports its marker and hands the next cycle the retained segment. */
  lemma LoopFromStep(chunks: seq<Read>, i: nat, readMsg: string -> MsgRead)
    requires i <= |chunks| && !StopsAt(chunks, i)
    ensures i + 1 <= |chunks|
    ensures Linked(RunsFrom(chunks, readMsg)(i), MarkerEvents(chunks)(i), RunsFrom(chunks, readMsg)(i + 1))
  {
    var c := ReadCycle(Text.LastSegment(Consumed(chunks, i), ';'), [], ReadAt(chunks, i).value);
    CycleByText(chunks, i);
    assert !ReadAt(chunks, i).done && !c.stop;
    assert c.ids == [];
    assert c.buffer == Text.LastSegment(Consumed(chunks, i + 1), ';');
    ReadLoopSteps(chunks, i, Text.LastSegment(Consumed(chunks, i), ';'), readMsg);
    assert RunsFrom(chunks, readMsg)(i) == LoopFrom(chunks, i, readMsg);
    assert RunsFrom(chunks, readMsg)(i + 1) == LoopFrom(chunks, i + 1, readMsg);
  }

  /** What the loop emits after the markers when the stream ends early: the error with the `msg` of what is left, then `done`. */
  function AbortTail(chunks: seq<Read>, j: nat, readMsg: string -> MsgRead): seq<Effect> {
    [Status(Error("Update Error", ErrorContent(readMsg(Text.LastSegment(Consumed(chunks, j + 1), ';'))))), Status(Done)]
  }

  /** The stopping cycle reports its marker and ends as `EndAt` says, with the error and `done` on a failure. */
  lemma LoopFromStop(chunks: seq<Read>, j: nat, readMsg: string -> MsgRead)
    requires j <= |chunks| && StopsAt(chunks, j)
    ensures var run := LoopFrom(chunks, j, readMsg);
      && run.end == EndAt(chunks, j)
      && run.effects == [ProgressEvent(Marker(chunks, j))] + (if run.end.Aborted? then AbortTail(chunks, j, readMsg) else [])
  {
    var buffer := Text.LastSegment(Consumed(chunks, j), ';');
    var c := ReadCycle(buffer, [], ReadAt(chunks, j).value);
    CycleByText(chunks, j);
    ReadLoopStops(chunks, j, buffer, readMsg);
    EndAtCycle(chunks, j);
    StopRun(LoopFrom(chunks, j, readMsg), c, ReadAt(chunks, j).done, EndAt(chunks, j), AbortTail(chunks, j, readMsg), readMsg);
  }

  /** The shape of a stopping cycle's run, given how it ends and what it reports. */
  lemma StopRun(run: LoopRun, c: Cycle, done: bool, end: LoopEnd, tail: seq<Effect>, readMsg: string -> MsgRead)
    requires end == if done && |c.ids| == 0 && c.buffer != "" then Aborted else Drained(c.ids)
    requires tail == [Status(Error("Update Error", ErrorContent(readMsg(c.buffer)))), Status(Done)]
    requires run == if done && |c.ids| == 0 && c.buffer != ""
      then LoopRun([ProgressEvent(c.marker), tail[0], tail[1]], Aborted)
      else LoopRun([ProgressEvent(c.marker)], Drained(c.ids))
    ensures run.end == end
    ensures run.effects == [ProgressEvent(c.marker)] + (if end.Aborted? then tail else [])
  {
    if end.Aborted? {
      assert [ProgressEvent(c.marker), tail[0], tail[1]] == [ProgressEvent(c.marker)] + tail;
    }
  }

  /** How the loop ends in cycle `j`, in terms of that cycle. */
  lemma EndAtCycle(chunks: seq<Read>, j: nat)
    ensures var c := ReadCycle(Text.LastSegment(Consumed(chunks, j), ';'), [], ReadAt(chunks, j).value);
      EndAt(chunks, j) == if ReadAt(chunks, j).done && |c.ids| == 0 && c.buffer != "" then Aborted else Drained(c.ids)
  {
    CycleByText(chunks, j);
  }

  /** The events `g(i)` to `g(j)`, in order. */
  function Events(g: nat -> Effect, i: nat, j: nat): (r: seq<Effect>)
    requires i <= j
  {
    seq(j - i + 1, n requires 0 <= n => g(i + n))
  }

  /** The progress events of cycles `i` to `j`, one per cycle, with the marker of that cycle. */
  function Markers(chunks: seq<Read>, i: nat, j: nat): (r: seq<Effect>)
    requires i <= j
  {
    Events(MarkerEvents(chunks), i, j)
  }

  /** A run that reports `event` and then carries on as `next`. */
  predicate Linked(run: LoopRun, event: Effect, next: LoopRun) {
    run.end == next.end && run.effects == [event] + next.effects
  }

  /** The events from `i` to `j` are the one of `i` followed by the rest. */
  lemma EventsCons(g: nat -> Effect, i: nat, j: nat)
    requires i < j
    ensures Events(g, i, j) == [g(i)] + Events(g, i + 1, j)
  {
    var es := Events(g, i, j);
    var rest := Events(g, i + 1, j);
    forall n | 0 <= n < |es| ensures es[n] == ([g(i)] + rest)[n] {
      if n > 0 {
        assert rest[n - 1] == g(i + 1 + (n - 1));
      }
    }
  }

  /**
   * Runs `f(i)` to `f(j)`, each of which reports its event `g(n)` and carries
   * on as the next: the first emits all the events, then what the last one
   * adds after its own, and ends as the last one does.
   */
  lemma {:induction false} ChainedRuns(f: nat -> LoopRun, g: nat -> Effect, i: nat, j: nat, tail: seq<Effect>)
    requires i <= j
    requires forall n :: i <= n < j ==> Linked(f(n), g(n), f(n + 1))
    requires f(j).effects == [g(j)] + tail
    ensures f(i).effects == Events(g, i, j) + tail
    ensures f(i).end == f(j).end
    decreases j - i
  {
    if i == j {
      assert Events(g, i, j) == [g(i)];
    } else {
      assert Linked(f(i), g(i), f(i + 1));
      ChainedRuns(f, g, i + 1, j, tail);
      EventsCons(g, i, j);
    }
  }

  /**
   * The read loop depends on the body only through the text read so far: run
   * from a cycle `i` before the first stop `j`, it reports one marker per
   * cycle, each the text before the first `;` of what that cycle holds, ends
   * as `EndAt(j)` says, and on the early failure closes with the error and
   * `done`.
   */
  lemma LoopByText(chunks: seq<Read>, i: nat, j: nat, readMsg: string -> MsgRead)
    requires i <= |chunks| && i <= j && StopsAt(chunks, j)
    requires forall k :: i <= k < j ==> !StopsAt(chunks, k)
    ensures j <= |chunks|
    ensures var run := LoopFrom(chunks, i, readMsg);
      && run.end == EndAt(chunks, j)
      && run.effects == Markers(chunks, i, j) + (if run.end.Aborted? then AbortTail(chunks, j, readMsg) else [])
  {
    StopBound(chunks, i, j);
    var f := RunsFrom(chunks, readMsg);
    var g := MarkerEvents(chunks);
    forall n | i <= n < j ensures Linked(f(n), g(n), f(n + 1)) {
      LoopFromStep(chunks, n, readMsg);
    }
    LoopFromStop(chunks, j, readMsg);
    var last := LoopFrom(chunks, j, readMsg);
    var tail := if last.end.Aborted? then AbortTail(chunks, j, readMsg) else [];
    ChainedRuns(f, g, i, j, tail);
    assert Markers(chunks, i, j) == Events(g, i, j);
  }

  /** Cycle `i`, run on the retained segment of the text before it, is determined by the text after it. */
  lemma CycleByText(chunks: seq<Read>, i: nat)
    ensures var c := ReadCycle(Text.LastSegment(Consumed(chunks, i), ';'), [], ReadAt(chunks, i).value);
      var text := Consumed(chunks, i + 1);
      && c.buffer == Text.LastSegment(text, ';')
      && c.stop == EndsWithBracket(text)
      && c.marker == Marker(chunks, i)
      && c.ids == (if c.stop then JsonIds.ParseIds(Text.LastSegment(text, ';')).GetOr([]) else [])
  {
    var before := Consumed(chunks, i);
    var v := ReadAt(chunks, i).value;
    ReadCycleSpec(Text.LastSegment(before, ';'), [], v);
    Text.LastSegmentOfAppend(before, v, ';');
    BracketOfLastSegment(before, v);
    assert Consumed(chunks, i + 1) == before + v;
  }

  /** No stop among cycles `i` to `j - 1` puts `j` at most at the end of the stream, which always stops. */
  lemma StopBound(chunks: seq<Read>, i: nat, j: nat)
    requires i <= |chunks| && i <= j
    requires forall k :: i <= k < j ==> !StopsAt(chunks, k)
    ensures j <= |chunks|
  {
    assert StopsAt(chunks, |chunks|);
  }

  /** The first cycle at or after `from` that ends the loop; there is one, since a stream that has run out is done. */
  function FirstStop(chunks: seq<Read>, from: nat): (j: nat)
    requires from <= |chunks|
    ensures from <= j <= |chunks| && StopsAt(chunks, j)
    ensures forall k :: from <= k < j ==> !StopsAt(chunks, k)
    decreases |chunks| - from
  {
    if StopsAt(chunks, from) then from
    else
      assert from < |chunks|;
      FirstStop(chunks, from + 1)
  }

  // ---------------------------------------------------------------- counting the loop's events

  /** Events that are all of kind `k`, or all not, count all or none. */
  lemma {:induction false} CountEvents(g: nat -> Effect, i: nat, j: nat, k: Kind, b: bool)
    requires i <= j
    requires forall n :: i <= n <= j ==> Is(g(n), k) == b
    ensures Count(Events(g, i, j), k) == (if b then j - i + 1 else 0)
    decreases j - i
  {
    if i == j {
      assert Events(g, i, j) == [g(i)] + [];
      CountCons(g(i), [], k);
    } else {
      EventsCons(g, i, j);
      CountEvents(g, i + 1, j, k, b);
      CountCons(g(i), Events(g, i + 1, j), k);
    }
  }

  /** The marker events are progress events and nothing else. */
  lemma CountMarkers(chunks: seq<Read>, i: nat, j: nat, k: Kind)
    requires i <= j
    ensures Count(Markers(chunks, i, j), k) == (if k == ProgressKind then j - i + 1 else 0)
  {
    CountEvents(MarkerEvents(chunks), i, j, k, k == ProgressKind);
  }

  /** `done` alone is one `done`. */
  lemma CountDone(k: Kind)
    ensures Count([Status(Done)], k) == (if k == DoneKind then 1 else 0)
  {
    assert [Status(Done)][1..] == [];
  }

  /** An error and then `done`: one of each. */
  lemma CountErrorDone(title: string, message: Option<string>, k: Kind)
    ensures Count([Status(Error(title, message)), Status(Done)], k) == (if k == DoneKind || k == ErrorKind then 1 else 0)
  {
    var t := [Status(Error(title, message)), Status(Done)];
    assert t[1..] == [Status(Done)];
    CountDone(k);
  }

  /** The transport end and then `done`: one of each. */
  lemma CountEndDone(k: Kind)
    ensures Count([ApiCallEnd, Status(Done)], k) == (if k == DoneKind || k == TransportEndKind then 1 else 0)
  {
    assert [ApiCallEnd, Status(Done)][1..] == [Status(Done)];
    CountDone(k);
  }

  /** The closing events of the early failure: one error, then `done`. */
  lemma CountAbortTail(chunks: seq<Read>, j: nat, readMsg: string -> MsgRead, k: Kind)
    ensures Count(AbortTail(chunks, j, readMsg), k) == (if k == DoneKind || k == ErrorKind then 1 else 0)
  {
    CountErrorDone("Update Error", ErrorContent(readMsg(Text.LastSegment(Consumed(chunks, j + 1), ';'))), k);
  }

  /**
   * The read loop from the start of the body emits one progress event per
   * cycle up to the first stop; `done` and an error only on the early failure,
   * and then `done` last; never the transport end.
   */
  lemma LoopCounts(chunks: seq<Read>, readMsg: string -> MsgRead, k: Kind)
    ensures var run := LoopFrom(chunks, 0, readMsg);
      && Count(run.effects, k) == (if k == ProgressKind then FirstStop(chunks, 0) + 1 else 0)
           + (if run.end.Aborted? && (k == DoneKind || k == ErrorKind) then 1 else 0)
      && (run.end.Aborted? ==> |run.effects| >= 3 && run.effects[|run.effects| - 1] == Status(Done))
  {
    var j := FirstStop(chunks, 0);
    LoopByText(chunks, 0, j, readMsg);
    var run := LoopFrom(chunks, 0, readMsg);
    var ms := Markers(chunks, 0, j);
    var tail := if run.end.Aborted? then AbortTail(chunks, j, readMsg) else [];
    CountAppend(ms, tail, k);
    CountMarkers(chunks, 0, j, k);
    if run.end.Aborted? {
      CountAbortTail(chunks, j, readMsg, k);
      assert run.effects[|run.effects| - 1] == tail[1];
    }
  }

  // ---------------------------------------------------------------- properties of update

  /** Nothing to submit: no request, the transport is closed, one `done`, and `"no changes"`; and only then. */
  lemma UpdateWithoutRows(cfg: ApiConfig, data: seq<Row>, response: Response, readMsg: string -> MsgRead)
    ensures var o := UpdateOutcome(cfg, data, response, readMsg);
      && (o.result == NoChanges <==> |data| == 0)
      && (|data| == 0 ==> o.effects == [ApiCallStart, ApiCallEnd, Status(Done)])
      && (|data| > 0 ==> o.effects[2] == Post(UpdateUrl(cfg), data))
  {
  }

  /** The events of `update` without rows: transport start and end, then `done`. */
  lemma CountWithoutRows(cfg: ApiConfig, data: seq<Row>, response: Response, readMsg: string -> MsgRead, k: Kind)
    requires |data| == 0
    ensures Count(UpdateOutcome(cfg, data, response, readMsg).effects, k)
      == (if k == DoneKind || k == TransportEndKind then 1 else 0)
  {
    CountThree(ApiCallStart, ApiCallEnd, Status(Done), k);
  }

  /**
   * A failed response or one without a body: a body `JSON.parse` cannot read,
   * or a `null` error payload, rejects with nothing after the request, and so
   * do every successful response without a body and every empty body; otherwise `update` reports
   * the failure with an error event and `done`, and resolves with `success`
   * false and no ids.
   */
  lemma CountWithoutStream(cfg: ApiConfig, data: seq<Row>, response: Response, readMsg: string -> MsgRead, k: Kind)
    requires |data| > 0 && (!response.ok || response.body.None?)
    ensures var o := UpdateOutcome(cfg, data, response, readMsg);
      && (o.result == Rejected || o.result == Reply(false, []))
      && (response.ok ==> o.result == Rejected)
      && ((response.body.None? || BodyText(response.body.value) == "") ==> o.result == Rejected)
      && Count(o.effects, k) == (if o.result == Rejected then 0
           else if k == DoneKind || (k == ErrorKind && !response.ok) then 1 else 0)
      && (o.result != Rejected ==> o.effects[|o.effects| - 1] == Status(Done))
  {
    var opening := Opening(cfg, data);
    var json := ErrorBody(response, readMsg);
    var o := UpdateOutcome(cfg, data, response, readMsg);
    CountOpening(cfg, data);
    if json.Unparsable? || (!response.ok && json.NullValue?) {
      assert o == Outcome(opening, Rejected);
    } else if !response.ok {
      var close := [Status(Error("Fetch error", json.msg)), Status(Done)];
      assert o == Outcome(opening + close, Reply(false, []));
      CountAppend(opening, close, k);
      CountErrorDone("Fetch error", json.msg, k);
    }
  }

  /** With rows to submit and a readable body, `update` runs the read loop from the start of the text and finishes on it. */
  lemma UpdateReadsStream(cfg: ApiConfig, data: seq<Row>, chunks: seq<Read>, readMsg: string -> MsgRead)
    requires |data| > 0
    ensures UpdateOutcome(cfg, data, Response(true, Some(chunks)), readMsg)
      == Finish(Opening(cfg, data), LoopFrom(chunks, 0, readMsg), true)
  {
    assert Text.LastSegment(Consumed(chunks, 0), ';') == "";
  }

  /**
   * A readable body: `update` resolves with the ids when the loop drains and
   * with `success` false on the early failure; it emits the loop's events, plus
   * the transport end and `done` when the loop drains, and ends with `done`.
   */
  lemma CountWithStream(cfg: ApiConfig, data: seq<Row>, chunks: seq<Read>, readMsg: string -> MsgRead, k: Kind)
    requires |data| > 0
    ensures var o := UpdateOutcome(cfg, data, Response(true, Some(chunks)), readMsg);
      var run := LoopFrom(chunks, 0, readMsg);
      && o.result == (if run.end.Aborted? then Reply(false, []) else Reply(true, run.end.ids))
      && Count(o.effects, k) == Count(run.effects, k)
           + (if run.end.Drained? && (k == DoneKind || k == TransportEndKind) then 1 else 0)
      && o.effects[|o.effects| - 1] == Status(Done)
  {
    var opening := Opening(cfg, data);
    var run := LoopFrom(chunks, 0, readMsg);
    var o := UpdateOutcome(cfg, data, Response(true, Some(chunks)), readMsg);
    UpdateReadsStream(cfg, data, chunks, readMsg);
    assert o == Finish(opening, run, true);
    CountOpening(cfg, data);
    CountAppend(opening, run.effects, k);
    LoopCounts(chunks, readMsg, k);
    if run.end.Drained? {
      var close := [ApiCallEnd, Status(Done)];
      assert o.effects == opening + run.effects + close;
      CountAppend(opening + run.effects, close, k);
      CountEndDone(k);
    } else {
      assert o.effects == opening + run.effects;
      assert (opening + run.effects)[|opening + run.effects| - 1] == run.effects[|run.effects| - 1];
    }
  }

  /** Every return of `update` emits exactly one `done`, as its last event; only a rejected read of the error body emits none. */
  lemma UpdateOneDone(cfg: ApiConfig, data: seq<Row>, response: Response, readMsg: string -> MsgRead)
    ensures var o := UpdateOutcome(cfg, data, response, readMsg);
      && Count(o.effects, DoneKind) == (if o.result == Rejected then 0 else 1)
      && (o.result != Rejected ==> o.effects[|o.effects| - 1] == Status(Done))
  {
    if |data| == 0 {
      CountWithoutRows(cfg, data, response, readMsg, DoneKind);
    } else if !response.ok || response.body.None? {
      CountWithoutStream(cfg, data, response, readMsg, DoneKind);
    } else {
      assert response == Response(true, Some(response.body.value));
      CountWithStream(cfg, data, response.body.value, readMsg, DoneKind);
      LoopCounts(response.body.value, readMsg, DoneKind);
    }
  }

  /** The transport-end marker is emitted once on success and on "no changes", and never on a failure. */
  lemma UpdateTransportEnd(cfg: ApiConfig, data: seq<Row>, response: Response, readMsg: string -> MsgRead)
    ensures var o := UpdateOutcome(cfg, data, response, readMsg);
      Count(o.effects, TransportEndKind) == (if o.result == NoChanges || (o.result.Reply? && o.result.success) then 1 else 0)
  {
    if |data| == 0 {
      CountWithoutRows(cfg, data, response, readMsg, TransportEndKind);
    } else if !response.ok || response.body.None? {
      CountWithoutStream(cfg, data, response, readMsg, TransportEndKind);
    } else {
      assert response == Response(true, Some(response.body.value));
      CountWithStream(cfg, data, response.body.value, readMsg, TransportEndKind);
      LoopCounts(response.body.value, readMsg, TransportEndKind);
    }
  }

  /**
   * `success` is `response.ok`, so it is true wherever `update` reports it:
   * exactly when the body was decoded to the end without the early failure;
   * every failure carries no ids.
   */
  lemma UpdateSuccess(cfg: ApiConfig, data: seq<Row>, response: Response, readMsg: string -> MsgRead)
    ensures var o := UpdateOutcome(cfg, data, response, readMsg);
      && (o.result.Reply? && o.result.success ==> response.ok && response.body.Some? && |data| > 0)
      && (o.result.Reply? && !o.result.success ==> o.result.data == [])
      && (|data| > 0 && response.ok && response.body.Some? ==>
            o.result.Reply? &&
            (o.result.success <==> LoopFrom(response.body.value, 0, readMsg).end.Drained?))
  {
    if |data| > 0 && response.ok && response.body.Some? {
      assert response == Response(true, Some(response.body.value));
      UpdateReadsStream(cfg, data, response.body.value, readMsg);
    }
  }

  /** A text of `;`-free markers followed by a formatted id array ends in `]` and keeps that array as its last segment. */
  lemma MarkedIdsText(markers: seq<string>, ids: seq<int>)
    requires forall m :: m in markers ==> ';' !in m
    ensures var text := Text.Join(markers + [JsonIds.FormatIds(ids)], ';');
      && EndsWithBracket(text)
      && Text.LastSegment(text, ';') == JsonIds.FormatIds(ids)
      && JsonIds.ParseIds(Text.LastSegment(text, ';')) == Some(ids)
  {
    var text := Text.Join(markers + [JsonIds.FormatIds(ids)], ';');
    var parts := markers + [JsonIds.FormatIds(ids)];
    forall k | 0 <= k < |parts| ensures ';' !in parts[k] {
      if k < |markers| { assert parts[k] in markers; }
    }
    Text.LastSegmentOfJoin(parts, ';');
    Text.LastSegmentOfSplit(text, ';');
    JsonIds.IdsRoundTrip(ids);
  }

  /** The read loop over such a body drains with those ids after `j + 1` progress events. */
  lemma LoopDecodesIds(chunks: seq<Read>, markers: seq<string>, ids: seq<int>, j: nat, readMsg: string -> MsgRead)
    requires ids != []
    requires forall m :: m in markers ==> ';' !in m
    requires forall k :: 0 <= k < j ==> !StopsAt(chunks, k)
    requires Consumed(chunks, j + 1) == Text.Join(markers + [JsonIds.FormatIds(ids)], ';')
    ensures j <= |chunks|
    ensures LoopFrom(chunks, 0, readMsg).end == Drained(ids)
    ensures Count(LoopFrom(chunks, 0, readMsg).effects, ProgressKind) == j + 1
  {
    MarkedIdsText(markers, ids);
    EndAtIds(chunks, j, ids);
    LoopByText(chunks, 0, j, readMsg);
    assert FirstStop(chunks, 0) == j;
    LoopCounts(chunks, readMsg, ProgressKind);
  }

  /** A text read by cycle `j` that ends in the array of a non-empty id list stops there and drains with those ids. */
  lemma EndAtIds(chunks: seq<Read>, j: nat, ids: seq<int>)
    requires ids != []
    requires EndsWithBracket(Consumed(chunks, j + 1))
    requires JsonIds.ParseIds(Text.LastSegment(Consumed(chunks, j + 1), ';')) == Some(ids)
    ensures StopsAt(chunks, j) && EndAt(chunks, j) == Drained(ids)
  {
  }

  /**
   * Whatever the chunking, a body whose text up to the first stop is progress
   * markers and then the JSON array of a non-empty id list yields those ids
   * with `success` true, after one progress event per read cycle.
   */
  lemma UpdateDecodesIds(cfg: ApiConfig, data: seq<Row>, chunks: seq<Read>, markers: seq<string>, ids: seq<int>, j: nat, readMsg: string -> MsgRead)
    requires |data| > 0 && ids != []
    requires forall m :: m in markers ==> ';' !in m
    requires forall k :: 0 <= k < j ==> !StopsAt(chunks, k)
    requires Consumed(chunks, j + 1) == Text.Join(markers + [JsonIds.FormatIds(ids)], ';')
    ensures var o := UpdateOutcome(cfg, data, Response(true, Some(chunks)), readMsg);
      && o.result == Reply(true, ids)
      && Count(o.effects, ProgressKind) == j + 1
  {
    LoopDecodesIds(chunks, markers, ids, j, readMsg);
    CountWithStream(cfg, data, chunks, readMsg, ProgressKind);
  }

  /**
   * A marker chunk and then the id array in a chunk of its own: the loop
   * reports two progress events, the marker and then the array itself, and
   * `update` resolves with the ids.
   */
  lemma UpdateTwoChunks(cfg: ApiConfig, data: seq<Row>, readMsg: string -> MsgRead)
    requires |data| > 0
    ensures var o := UpdateOutcome(cfg, data, Response(true, Some([Read("updated:5;", false), Read("[7,8]", false)])), readMsg);
      && o.result == Reply(true, [7, 8])
      && o.effects == Opening(cfg, data) + [ProgressEvent("updated:5"), ProgressEvent("[7,8]"), ApiCallEnd, Status(Done)]
  {
    var chunks := [Read("updated:5;", false), Read("[7,8]", false)];
    TwoChunksLoop(chunks, readMsg);
    var run := ReadLoop(chunks, 0, "", [], readMsg);
    assert UpdateOutcome(cfg, data, Response(true, Some(chunks)), readMsg) == Finish(Opening(cfg, data), run, true);
  }

  lemma TwoChunksLoop(chunks: seq<Read>, readMsg: string -> MsgRead)
    requires chunks == [Read("updated:5;", false), Read("[7,8]", false)]
    ensures ReadLoop(chunks, 0, "", [], readMsg) == LoopRun([ProgressEvent("updated:5"), ProgressEvent("[7,8]")], Drained([7, 8]))
  {
    SecondChunkLoop(chunks, readMsg);
    assert ReadAt(chunks, 0) == Read("updated:5;", false);
    MarkerCycle();
    ReadLoopSteps(chunks, 0, "", readMsg);
  }

  lemma SecondChunkLoop(chunks: seq<Read>, readMsg: string -> MsgRead)
    requires chunks == [Read("updated:5;", false), Read("[7,8]", false)]
    ensures ReadLoop(chunks, 1, "", [], readMsg) == LoopRun([ProgressEvent("[7,8]")], Drained([7, 8]))
  {
    assert ReadAt(chunks, 1) == Read("[7,8]", false);
    ArrayCycle();
    ReadLoopStops(chunks, 1, "", readMsg);
  }

  /** The first chunk of `UpdateTwoChunks`: a marker and an empty last segment, no stop. */
  lemma MarkerCycle()
    ensures ReadCycle("", [], "updated:5;") == Cycle("", [], false, "updated:5")
  {
    var text := "" + "updated:5;";
    assert text == "updated:5;";
    var parts := ["updated:5", ""];
    assert parts[1..] == [""];
    assert Text.Join([""], ';') == "";
    assert "updated:5" + [';'] + "" == "updated:5;";
    Text.SplitJoin(parts, ';');
  }

  /** The second chunk of `UpdateTwoChunks`: one segment, the array, and a stop with its ids. */
  lemma ArrayCycle()
    ensures ReadCycle("", [], "[7,8]") == Cycle("[7,8]", [7, 8], true, "[7,8]")
  {
    var text := "" + "[7,8]";
    assert text == "[7,8]";
    SevenEightParse();
    ArraySplit();
    assert Text.LastSegment(text, ';') == "[7,8]";
  }

  lemma ArraySplit()
    ensures Text.Split("[7,8]", ';') == ["[7,8]"]
  {
    assert Text.Join(["[7,8]"], ';') == "[7,8]";
    Text.SplitJoin(["[7,8]"], ';');
  }

  lemma SevenEightParse()
    ensures JsonIds.ParseIds("[7,8]") == Some([7, 8])
  {
    SevenEightText();
    JsonIds.IdsRoundTrip([7, 8]);
  }

  lemma SevenEightText()
    ensures JsonIds.FormatIds([7, 8]) == "[7,8]"
  {
    assert JsonIds.IntText(7) == "7";
    assert JsonIds.IntText(8) == "8";
    var texts := JsonIds.ElementTexts([7, 8]);
    assert texts == ["7", "8"];
    assert texts[1..] == ["8"];
    assert Text.Join(texts, ',') == "7,8";
  }

  /**
   * A stream that ends before any text ending in `]` fails with exactly one
   * error event, reporting the `msg` of what is left in the buffer, unless
   * nothing is left: then it falls through to `success` with no ids.
   */
  lemma UpdateStreamEndsEarly(cfg: ApiConfig, data: seq<Row>, chunks: seq<Read>, j: nat, readMsg: string -> MsgRead)
    requires |data| > 0
    requires forall k :: 0 <= k < j ==> !StopsAt(chunks, k)
    requires ReadAt(chunks, j).done && !EndsWithBracket(Consumed(chunks, j + 1))
    ensures var o := UpdateOutcome(cfg, data, Response(true, Some(chunks)), readMsg);
      var rest := Text.LastSegment(Consumed(chunks, j + 1), ';');
      && o.result == (if rest != "" then Reply(false, []) else Reply(true, []))
      && Count(o.effects, ErrorKind) == (if rest != "" then 1 else 0)
      && (rest != "" ==> o.effects[|o.effects| - 2] == Status(Error("Update Error", ErrorContent(readMsg(rest)))))
  {
    var rest := Text.LastSegment(Consumed(chunks, j + 1), ';');
    LoopByText(chunks, 0, j, readMsg);
    assert EndAt(chunks, j) == (if rest != "" then Aborted else Drained([]));
    CountWithStream(cfg, data, chunks, readMsg, ErrorKind);
    LoopCounts(chunks, readMsg, ErrorKind);
    var run := LoopFrom(chunks, 0, readMsg);
    if run.end.Aborted? {
      UpdateReadsStream(cfg, data, chunks, readMsg);
      var e := Opening(cfg, data) + run.effects;
      var tail := AbortTail(chunks, j, readMsg);
      assert run.effects == Markers(chunks, 0, j) + tail;
      assert run.effects[|run.effects| - 2] == tail[0];
      assert e[|e| - 2] == run.effects[|run.effects| - 2];
    }
  }
}
