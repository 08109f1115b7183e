/**
 * The buffered request-detail store of src/lib/requestDetailsDb.js: details
 * are appended to an in-memory buffer, flushed to the table in one
 * transaction when the buffer reaches the batch size, when the idle timer
 * fires, or on shutdown; reads go to the table only.
 */
module RequestDetailsDb {
  import opened Wrappers
  import opened Json
  import opened Headers
  import opened Serializer
  import opened DetailId
  import opened JsMath
  import opened Table
  import opened QueryEngine

  // ---------------------------------------------------------------------------
  // Configuration
  // ---------------------------------------------------------------------------

  datatype Config = Config(maxRecords: int, batchSize: int, flushIntervalMs: int, maxJsonSize: int)

  const DefaultMaxRecords := 1000
  const DefaultBatchSize := 20
  const DefaultFlushIntervalMs := 5000
  const DefaultMaxJsonSizeKB := 1024

  const DefaultConfig := Config(DefaultMaxRecords, DefaultBatchSize, DefaultFlushIntervalMs, DefaultMaxJsonSizeKB * 1024)

  /** The observability settings as read; 0 stands for unset (falsy). */
  datatype Settings = Settings(maxRecords: int, batchSize: int, flushIntervalMs: int, maxJsonSizeKB: int)

  /** The OBSERVABILITY_* environment variables, already parsed; None when unset or empty. */
  datatype EnvVars = EnvVars(maxRecords: Option<int>, batchSize: Option<int>, flushIntervalMs: Option<int>, maxJsonSizeKB: Option<int>)

  /** `setting || parseInt(env || default)` */
  function Setting(fromSettings: int, fromEnv: Option<int>, default: int): int {
    if fromSettings != 0 then fromSettings else fromEnv.GetOr(default)
  }

  /**
   * `getObservabilityConfig()`: each value from the settings, else from the
   * environment, else the default; the JSON size limit is configured in KB.
   * `settings == None` is the settings read throwing: then every value is
   * the default and the environment is not consulted.
   */
  function LoadConfig(settings: Option<Settings>, env: EnvVars): (c: Config)
    ensures settings.None? ==> c == DefaultConfig
    ensures c.maxJsonSize % 1024 == 0
    ensures settings == Some(Settings(0, 0, 0, 0)) && env == EnvVars(None, None, None, None) ==> c == DefaultConfig
    // a non-zero setting wins
    ensures settings.Some? && settings.value.maxRecords != 0 ==> c.maxRecords == settings.value.maxRecords
    ensures settings.Some? && settings.value.batchSize != 0 ==> c.batchSize == settings.value.batchSize
    ensures settings.Some? && settings.value.flushIntervalMs != 0 ==> c.flushIntervalMs == settings.value.flushIntervalMs
    ensures settings.Some? && settings.value.maxJsonSizeKB != 0 ==> c.maxJsonSize == settings.value.maxJsonSizeKB * 1024
    // otherwise a given environment variable
    ensures settings.Some? && settings.value.maxRecords == 0 && env.maxRecords.Some? ==>
              c.maxRecords == env.maxRecords.value
    ensures settings.Some? && settings.value.batchSize == 0 && env.batchSize.Some? ==>
              c.batchSize == env.batchSize.value
    ensures settings.Some? && settings.value.flushIntervalMs == 0 && env.flushIntervalMs.Some? ==>
              c.flushIntervalMs == env.flushIntervalMs.value
    ensures settings.Some? && settings.value.maxJsonSizeKB == 0 && env.maxJsonSizeKB.Some? ==>
              c.maxJsonSize == env.maxJsonSizeKB.value * 1024
    // otherwise the default
    ensures settings.Some? && settings.value.maxRecords == 0 && env.maxRecords.None? ==> c.maxRecords == DefaultMaxRecords
    ensures settings.Some? && settings.value.batchSize == 0 && env.batchSize.None? ==> c.batchSize == DefaultBatchSize
    ensures settings.Some? && settings.value.flushIntervalMs == 0 && env.flushIntervalMs.None? ==>
              c.flushIntervalMs == DefaultFlushIntervalMs
    ensures settings.Some? && settings.value.maxJsonSizeKB == 0 && env.maxJsonSizeKB.None? ==>
              c.maxJsonSize == DefaultMaxJsonSizeKB * 1024
  {
    match settings
    case None => DefaultConfig
    case Some(s) =>
      Config(
        Setting(s.maxRecords, env.maxRecords, DefaultMaxRecords),
        Setting(s.batchSize, env.batchSize, DefaultBatchSize),
        Setting(s.flushIntervalMs, env.flushIntervalMs, DefaultFlushIntervalMs),
        Setting(s.maxJsonSizeKB, env.maxJsonSizeKB, DefaultMaxJsonSizeKB) * 1024)
  }

  // ---------------------------------------------------------------------------
  // Details and their preparation for the table
  // ---------------------------------------------------------------------------

  /**
   * A request detail as producers submit it. Absent fields are None; a
   * timestamp is epoch milliseconds, and 0 counts as absent.
   */
  datatype Detail = Detail(
    id: Option<string>,
    provider: Option<string>,
    model: Option<string>,
    connectionId: Option<string>,
    timestamp: Option<int>,
    status: Option<string>,
    latency: Option<Json>,
    tokens: Option<Json>,
    request: Option<Json>,
    providerRequest: Option<Json>,
    providerResponse: Option<Json>,
    response: Option<Json>)

  /**
   * What the transaction reads from the environment for one item: the time
   * in milliseconds and as an ISO string, and the random id suffix.
   */
  datatype ItemReading = ItemReading(nowMillis: int, nowIso: string, random: string)

  /**
   * Everything a flush takes from outside: the configuration it loads, the
   * reading for the item at each index, whether the database file opens
   * (when it is not open yet) and whether the storage engine lets the
   * transaction commit.
   */
  datatype FlushEnv = FlushEnv(config: Config, reading: nat -> ItemReading, opens: bool, commits: bool)

  /** What a call that needs the database throws when the file cannot be opened. */
  const OpenFailure := "unable to open database file"

  /**
   * The environment as a flush sees it when the database may already be
   * open: an open database stays open, so only the first open can fail.
   */
  function OnceOpen(env: FlushEnv, alreadyOpen: bool): (e: FlushEnv)
    ensures e.opens == (alreadyOpen || env.opens)
    ensures e.(opens := env.opens) == env
  {
    env.(opens := alreadyOpen || env.opens)
  }

  /** The database is open and the storage engine commits. */
  predicate StorageOk(env: FlushEnv) {
    env.opens && env.commits
  }

  /** `item.timestamp` is truthy: given and not 0. */
  predicate HasTimestamp(d: Detail) {
    d.timestamp.Some? && d.timestamp.value != 0
  }

  /** `item.request && item.request.headers` */
  predicate HasHeaders(request: Option<Json>) {
    request.Some? && request.value.JObj? && "headers" in request.value.fields
    && Truthy(request.value.fields["headers"])
  }

  /**
   * The first part of the transaction's loop body: a missing id is generated,
   * a missing timestamp is the reading's time, and the request headers are redacted;
   * nothing else about the detail changes.
   */
  function PrepareDetail(d: Detail, c: ItemReading): (p: Detail)
    ensures p.id.Some? && p.id.value != ""
    ensures Present(d.id) ==> p.id == d.id
    ensures !Present(d.id) ==> p.id == Some(GenerateDetailId(d.model, c.nowIso, c.random))
    ensures p.timestamp == (if HasTimestamp(d) then d.timestamp else Some(c.nowMillis))
    ensures HasHeaders(d.request) ==>
              && p.request.Some? && p.request.value.JObj?
              && "headers" in p.request.value.fields
              && p.request.value.fields["headers"] == JObj(Sanitized(d.request.value.fields["headers"]))
              && (forall k :: k in d.request.value.fields && k != "headers" ==>
                    k in p.request.value.fields && p.request.value.fields[k] == d.request.value.fields[k])
    ensures !HasHeaders(d.request) ==> p.request == d.request
    ensures p.(id := d.id, timestamp := d.timestamp, request := d.request) == d
  {
    var id := if Present(d.id) then d.id.value else GenerateDetailId(d.model, c.nowIso, c.random);
    var timestamp := if HasTimestamp(d) then d.timestamp.value else c.nowMillis;
    var request :=
      if HasHeaders(d.request)
      then Some(JObj(d.request.value.fields["headers" := JObj(Sanitized(d.request.value.fields["headers"]))]))
      else d.request;
    d.(id := Some(id), timestamp := Some(timestamp), request := request)
  }

  /**
   * The preparation as the loop body performs it, one conditional step after
   * another, with the headers redacted by the SanitizeHeaders loop; it
   * computes exactly PrepareDetail.
   */
  method PrepareItem(d: Detail, c: ItemReading) returns (p: Detail)
    ensures p == PrepareDetail(d, c)
  {
    p := d;
    if !Present(d.id) {
      p := p.(id := Some(GenerateDetailId(d.model, c.nowIso, c.random)));
    }
    if !HasTimestamp(d) {
      p := p.(timestamp := Some(c.nowMillis));
    }
    if HasHeaders(d.request) {
      var fields := d.request.value.fields;
      var headers := SanitizeHeaders(fields["headers"]);
      p := p.(request := Some(JObj(fields["headers" := JObj(headers)])));
    }
  }

  /**
   * The INSERT's arguments for a prepared detail: falsy strings become NULL,
   * latency and tokens are serialized as they are, the four payloads through
   * the size-bounded serializer. An error is a serialization throwing, which
   * aborts the transaction.
   */
  function ToRow(p: Detail, stringify: Stringify, maxJsonSize: int): (r: Result<Row, string>)
    requires p.id.Some? && p.timestamp.Some?
    ensures r.Ok? <==>
              && stringify(OrEmptyObject(p.latency)).Ok?
              && stringify(OrEmptyObject(p.tokens)).Ok?
              && SafeJsonStringify(stringify, OrEmptyObject(p.request), maxJsonSize).Ok?
              && SafeJsonStringify(stringify, OrEmptyObject(p.providerRequest), maxJsonSize).Ok?
              && SafeJsonStringify(stringify, OrEmptyObject(p.providerResponse), maxJsonSize).Ok?
              && SafeJsonStringify(stringify, OrEmptyObject(p.response), maxJsonSize).Ok?
    ensures r.Ok? ==>
              && r.value.id == p.id.value
              && r.value.timestamp == p.timestamp.value
              && r.value.provider == OrNull(p.provider)
              && r.value.model == OrNull(p.model)
              && r.value.connectionId == OrNull(p.connectionId)
              && r.value.status == OrNull(p.status)
              && Ok(r.value.latency) == stringify(OrEmptyObject(p.latency))
              && Ok(r.value.tokens) == stringify(OrEmptyObject(p.tokens))
              && Ok(r.value.request) == SafeJsonStringify(stringify, OrEmptyObject(p.request), maxJsonSize)
              && Ok(r.value.providerRequest) == SafeJsonStringify(stringify, OrEmptyObject(p.providerRequest), maxJsonSize)
              && Ok(r.value.providerResponse) == SafeJsonStringify(stringify, OrEmptyObject(p.providerResponse), maxJsonSize)
              && Ok(r.value.response) == SafeJsonStringify(stringify, OrEmptyObject(p.response), maxJsonSize)
  {
    var latency :- stringify(OrEmptyObject(p.latency));
    var tokens :- stringify(OrEmptyObject(p.tokens));
    var request :- SafeJsonStringify(stringify, OrEmptyObject(p.request), maxJsonSize);
    var providerRequest :- SafeJsonStringify(stringify, OrEmptyObject(p.providerRequest), maxJsonSize);
    var providerResponse :- SafeJsonStringify(stringify, OrEmptyObject(p.providerResponse), maxJsonSize);
    var response :- SafeJsonStringify(stringify, OrEmptyObject(p.response), maxJsonSize);
    Ok(Row(p.id.value, OrNull(p.provider), OrNull(p.model), OrNull(p.connectionId), p.timestamp.value,
           OrNull(p.status), latency, tokens, request, providerRequest, providerResponse, response))
  }

  /** The row written for item i of a batch. */
  function ItemRow(d: Detail, c: ItemReading, stringify: Stringify, maxJsonSize: int): Result<Row, string> {
    ToRow(PrepareDetail(d, c), stringify, maxJsonSize)
  }

  /**
   * `f(0), ..., f(n - 1)` when all succeed, otherwise the first error: a loop
   * that stops at the first throw.
   */
  function Collect<T, E>(n: nat, f: nat -> Result<T, E>): (r: Result<seq<T>, E>)
    ensures r.Ok? ==> |r.value| == n && forall i :: 0 <= i < n ==> f(i) == Ok(r.value[i])
  {
    if n == 0 then Ok([])
    else
      var init :- Collect(n - 1, f);
      var last :- f(n - 1);
      Ok(init + [last])
  }

  /** Collect fails exactly when one of the collected calls fails. */
  lemma {:induction false} CollectFailsIffSomeFails<T, E>(n: nat, f: nat -> Result<T, E>)
    ensures Collect(n, f).Err? <==> exists i :: 0 <= i < n && f(i).Err?
  {
    if n > 0 {
      CollectFailsIffSomeFails(n - 1, f);
    }
  }

  /** One more successful call extends a successful collection by its value. */
  lemma CollectStep<T, E>(n: nat, f: nat -> Result<T, E>)
    requires Collect(n, f).Ok? && f(n).Ok?
    ensures Collect(n + 1, f) == Ok(Collect(n, f).value + [f(n).value])
  {
  }

  /** The row for each index of the batch (an index past the end never gets asked for). */
  function RowAt(items: seq<Detail>, reading: nat -> ItemReading, stringify: Stringify, maxJsonSize: int): nat -> Result<Row, string> {
    (i: nat) => if i < |items| then ItemRow(items[i], reading(i), stringify, maxJsonSize) else Err("no such item")
  }

  /**
   * The rows a batch inserts, in buffer order, or the first error: the
   * transaction either writes a row for every item or fails as a whole.
   */
  function BatchRows(items: seq<Detail>, reading: nat -> ItemReading, stringify: Stringify, maxJsonSize: int): (r: Result<seq<Row>, string>)
    ensures r.Ok? ==> |r.value| == |items|
    ensures r.Ok? ==> forall i :: 0 <= i < |items| ==> ItemRow(items[i], reading(i), stringify, maxJsonSize) == Ok(r.value[i])
  {
    var rowAt := RowAt(items, reading, stringify, maxJsonSize);
    var r := Collect(|items|, rowAt);
    assert r.Ok? ==> forall i :: 0 <= i < |items| ==> rowAt(i) == Ok(r.value[i]);
    r
  }

  /** A batch fails exactly when some item of it fails to serialize. */
  lemma BatchFailsIffItemFails(items: seq<Detail>, reading: nat -> ItemReading, stringify: Stringify, maxJsonSize: int)
    ensures BatchRows(items, reading, stringify, maxJsonSize).Err?
        <==> exists i :: 0 <= i < |items| && ItemRow(items[i], reading(i), stringify, maxJsonSize).Err?
  {
    var rowAt := RowAt(items, reading, stringify, maxJsonSize);
    CollectFailsIffSomeFails(|items|, rowAt);
    assert forall i :: 0 <= i < |items| ==> rowAt(i) == ItemRow(items[i], reading(i), stringify, maxJsonSize);
  }

  /**
   * What a completed flush of `items` does to the table: when the database
   * is open, the storage commits and every item serializes, the batch is upserted in order and the
   * retention trim applied once; otherwise the transaction rolls back and the
   * table is as before.
   */
  ghost predicate Committed(before: Table, items: seq<Detail>, env: FlushEnv, stringify: Stringify, after: Table) {
    var batch := BatchRows(items, env.reading, stringify, env.config.maxJsonSize);
    if StorageOk(env) && batch.Ok? then RetainedNewest(UpsertAll(before, batch.value), after, env.config.maxRecords)
    else after == before
  }

  /**
   * The transaction of a flush, over the table as a value: for each item in
   * order prepare it and upsert its row, then apply the retention trim once.
   * A failing storage engine or a serialization that throws rolls it back.
   */
  method RunTransaction(before: Table, items: seq<Detail>, env: FlushEnv, stringify: Stringify) returns (after: Table)
    requires Keyed(before)
    ensures Keyed(after)
    ensures Committed(before, items, env, stringify, after)
  {
    var maxJsonSize := env.config.maxJsonSize;
    ghost var rowAt := RowAt(items, env.reading, stringify, maxJsonSize);
    var staged := before;
    var ok := StorageOk(env);
    var i := 0;
    while i < |items| && ok
      invariant 0 <= i <= |items|
      invariant Keyed(staged)
      invariant ok ==> StorageOk(env) && Staged(before, i, rowAt, staged)
      invariant !ok ==> !StorageOk(env) || BatchRows(items, env.reading, stringify, maxJsonSize).Err?
      decreases |items| - i, ok
    {
      var prepared := PrepareItem(items[i], env.reading(i));
      var row := ToRow(prepared, stringify, maxJsonSize);
      RowAtIndex(items, env.reading, stringify, maxJsonSize, i);
      if row.Err? {
        BatchFailsIffItemFails(items, env.reading, stringify, maxJsonSize);
        ok := false;
      } else {
        StagedStep(before, i, rowAt, staged);
        staged := Upsert(staged, row.value);
        i := i + 1;
      }
    }
    if ok {
      assert Collect(|items|, rowAt) == BatchRows(items, env.reading, stringify, maxJsonSize);
      after := TrimToNewest(staged, env.config.maxRecords);
    } else {
      after := before;
    }
  }

  /** The first `n` rows collected, all serialized, and upserted into `before` make `staged`. */
  ghost predicate Staged(before: Table, n: nat, rowAt: nat -> Result<Row, string>, staged: Table) {
    Collect(n, rowAt).Ok? && staged == UpsertAll(before, Collect(n, rowAt).value)
  }

  lemma StagedStep(before: Table, n: nat, rowAt: nat -> Result<Row, string>, staged: Table)
    requires Staged(before, n, rowAt, staged) && rowAt(n).Ok?
    ensures Staged(before, n + 1, rowAt, Upsert(staged, rowAt(n).value))
  {
    CollectStep(n, rowAt);
    var rows := Collect(n + 1, rowAt).value;
    assert rows[..|rows| - 1] == Collect(n, rowAt).value;
  }

  lemma RowAtIndex(items: seq<Detail>, reading: nat -> ItemReading, stringify: Stringify, maxJsonSize: int, i: nat)
    requires i < |items|
    ensures RowAt(items, reading, stringify, maxJsonSize)(i) == ToRow(PrepareDetail(items[i], reading(i)), stringify, maxJsonSize)
  {
  }

  // ---------------------------------------------------------------------------
  // The store
  // ---------------------------------------------------------------------------

  /**
   * The module-level state of the source as one object: the write buffer,
   * whether the flush timer is pending, the in-progress flag with the
   * snapshot the running flush holds, the table, the cached configuration
   * and whether the shutdown handler is registered, which happens exactly
   * when the database has been opened.
   */
  class Store {
    var buffer: seq<Detail>
    var timerPending: bool
    var flushing: bool
    var inFlight: seq<Detail>
    var rows: Table
    var cachedConfig: Option<Config>
    var shutdownRegistered: bool
    const stringify: Stringify

    /** The invariant every operation keeps, including the inner steps of a flush. */
    ghost predicate Consistent()
      reads this
    {
      Keyed(rows) && flushing == (inFlight != [])
    }

    /** Between events, moreover, a pending timer always has buffered items to flush. */
    ghost predicate Valid()
      reads this
    {
      Consistent() && (timerPending ==> buffer != [])
    }

    /** The store over a table that already holds `stored` (the database file survives restarts). */
    constructor (stored: Table, stringify: Stringify)
      requires Keyed(stored)
      ensures Valid()
      ensures rows == stored && buffer == [] && inFlight == []
      ensures !timerPending && !flushing && cachedConfig.None? && !shutdownRegistered
      ensures this.stringify == stringify
    {
      buffer := [];
      timerPending := false;
      flushing := false;
      inFlight := [];
      rows := stored;
      cachedConfig := None;
      shutdownRegistered := false;
      this.stringify := stringify;
    }

    /** `ensureShutdownHandler()`: registers once; later calls change nothing. */
    method EnsureShutdownHandler()
      modifies this`shutdownRegistered
      ensures shutdownRegistered
    {
      if !shutdownRegistered {
        shutdownRegistered := true;
      }
    }

    /**
     * `getRequestDetailsDb()`: the database is opened on first use and kept,
     * and the shutdown handler is registered right after the open succeeds,
     * so a registered handler also means an open database. When opening the
     * file throws (`opens` is false), nothing is registered and the next call
     * tries again.
     */
    method OpenDatabase(opens: bool) returns (open: bool)
      modifies this`shutdownRegistered
      ensures open == (old(shutdownRegistered) || opens)
      ensures shutdownRegistered == open
    {
      if !shutdownRegistered && opens {
        EnsureShutdownHandler();
      }
      open := shutdownRegistered;
    }

    /**
     * `flushToDatabase()` up to its first `await`: nothing happens while a
     * flush is running or the buffer is empty; otherwise the buffer is handed
     * to the flush and replaced by an empty one.
     */
    method BeginFlush() returns (started: bool)
      requires Consistent()
      modifies this`buffer, this`flushing, this`inFlight
      ensures Consistent()
      ensures started == (!old(flushing) && old(buffer) != [])
      ensures started ==> flushing && inFlight == old(buffer) && buffer == []
      ensures !started ==> buffer == old(buffer) && flushing == old(flushing) && inFlight == old(inFlight)
    {
      if flushing || |buffer| == 0 {
        return false;
      }
      flushing := true;
      inFlight := buffer;
      buffer := [];
      started := true;
    }

    /**
     * The rest of `flushToDatabase()`: open the database (registering the
     * shutdown handler when the open succeeds), run the transaction over the
     * snapshot, and clear the in-progress flag whether it committed or not.
     * A failed open throws before the transaction, which then changes
     * nothing. Items of a failed batch are not put back in the buffer; items
     * buffered meanwhile stay there.
     */
    method CompleteFlush(env: FlushEnv)
      requires Consistent() && flushing
      modifies this`rows, this`flushing, this`inFlight, this`shutdownRegistered
      ensures Consistent()
      ensures !flushing && inFlight == []
      ensures shutdownRegistered == (old(shutdownRegistered) || env.opens)
      ensures Committed(old(rows), old(inFlight), OnceOpen(env, old(shutdownRegistered)), stringify, rows)
    {
      var open := OpenDatabase(env.opens);
      rows := RunTransaction(rows, inFlight, env.(opens := open), stringify);
      flushing := false;
      inFlight := [];
    }

    /** `flushToDatabase()` run to completion with nothing interleaved. */
    method Flush(env: FlushEnv)
      requires Consistent()
      modifies this`buffer, this`flushing, this`inFlight, this`rows, this`shutdownRegistered
      ensures Consistent()
      ensures old(flushing) || old(buffer) == [] ==>
                && buffer == old(buffer) && flushing == old(flushing) && inFlight == old(inFlight)
                && rows == old(rows) && shutdownRegistered == old(shutdownRegistered)
      ensures !old(flushing) && old(buffer) != [] ==>
                && buffer == [] && !flushing && inFlight == []
                && shutdownRegistered == (old(shutdownRegistered) || env.opens)
                && Committed(old(rows), old(buffer), OnceOpen(env, old(shutdownRegistered)), stringify, rows)
    {
      var started := BeginFlush();
      if started {
        CompleteFlush(env);
      }
    }

    /**
     * `saveRequestDetail(detail)`: cache the configuration on first use, append
     * the detail, then either flush (size trigger) and cancel the timer, or
     * schedule the timer if none is pending. When the size trigger hits while
     * another flush is running, the flush does nothing and the timer is still
     * cancelled: the buffered items then wait with no timer pending.
     */
    method Save(detail: Detail, loaded: Config, env: FlushEnv)
      requires Valid()
      modifies this`buffer, this`flushing, this`inFlight, this`rows, this`shutdownRegistered
      modifies this`timerPending, this`cachedConfig
      ensures Valid()
      ensures cachedConfig == Some(old(cachedConfig).GetOr(loaded))
      ensures var appended := old(buffer) + [detail];
              if |appended| >= cachedConfig.value.batchSize then
                && !timerPending
                && (old(flushing) ==>
                      && buffer == appended && flushing && inFlight == old(inFlight)
                      && rows == old(rows) && shutdownRegistered == old(shutdownRegistered))
                && (!old(flushing) ==>
                      && buffer == [] && !flushing && inFlight == []
                      && shutdownRegistered == (old(shutdownRegistered) || env.opens)
                      && Committed(old(rows), appended, OnceOpen(env, old(shutdownRegistered)), stringify, rows))
              else
                && buffer == appended && timerPending
                && flushing == old(flushing) && inFlight == old(inFlight)
                && rows == old(rows) && shutdownRegistered == old(shutdownRegistered)
    {
      if cachedConfig.None? {
        cachedConfig := Some(loaded);
      }
      buffer := buffer + [detail];
      if |buffer| >= cachedConfig.value.batchSize {
        Flush(env);
        if timerPending {
          timerPending := false;
        }
      } else if !timerPending {
        timerPending := true;
      }
    }

    /**
     * The flush timer's callback: start a flush (which snapshots the buffer
     * unless one is already running) and forget the timer. The started
     * flush finishes later, as a CompleteFlush.
     */
    method TimerFire()
      requires Valid() && timerPending
      modifies this`buffer, this`flushing, this`inFlight, this`timerPending
      ensures Valid()
      ensures !timerPending
      ensures old(flushing) ==> buffer == old(buffer) && flushing && inFlight == old(inFlight)
      ensures !old(flushing) ==> buffer == [] && flushing && inFlight == old(buffer)
    {
      var _ := BeginFlush();
      timerPending := false;
    }

    /**
     * The registered shutdown handler: cancel the timer, then flush whatever
     * is buffered. Before registration a termination does nothing here. A
     * second call finds the buffer empty and writes nothing again.
     */
    method Shutdown(env: FlushEnv)
      requires Valid()
      modifies this`buffer, this`flushing, this`inFlight, this`rows, this`shutdownRegistered, this`timerPending
      ensures Valid()
      ensures !old(shutdownRegistered) ==>
                && buffer == old(buffer) && timerPending == old(timerPending) && flushing == old(flushing)
                && inFlight == old(inFlight) && rows == old(rows) && !shutdownRegistered
      ensures old(shutdownRegistered) ==> !timerPending && shutdownRegistered
      ensures old(shutdownRegistered) && old(buffer) != [] && !old(flushing) ==>
                && buffer == [] && !flushing && inFlight == []
                && Committed(old(rows), old(buffer), OnceOpen(env, true), stringify, rows)
      ensures old(shutdownRegistered) && (old(buffer) == [] || old(flushing)) ==>
                && buffer == old(buffer) && flushing == old(flushing) && inFlight == old(inFlight)
                && rows == old(rows)
    {
      if !shutdownRegistered {
        return;
      }
      timerPending := false;
      if |buffer| > 0 {
        Flush(env);
      }
    }

    /**
     * `getRequestDetails(filter)`: opens the database, then queries the table
     * (never the buffer). A failed open throws to the caller.
     */
    method GetRequestDetails(f: QueryFilter, opens: bool) returns (result: Result<PageResult, string>, ghost listing: seq<Row>)
      requires Consistent()
      modifies this`shutdownRegistered
      ensures shutdownRegistered == (old(shutdownRegistered) || opens)
      ensures result.Ok? <==> shutdownRegistered
      ensures result.Err? ==> result.error == OpenFailure
      ensures result.Ok? ==> ListsMatches(listing, rows, f)
      ensures result.Ok? ==>
                var b := PageBounds(|listing|, EffectivePage(f), EffectivePageSize(f));
                result.value.details == listing[b.0..b.1]
      ensures result.Ok? ==>
                result.value.pagination == PaginationFor(|MatchingIds(rows, f)|, EffectivePage(f), EffectivePageSize(f))
    {
      var open := OpenDatabase(opens);
      if !open {
        result, listing := Err(OpenFailure), [];
        return;
      }
      var page;
      page, listing := QueryTable(rows, f);
      result := Ok(page);
    }

    /**
     * `getRequestDetailById(id)`: the row stored under `id`, or none. A
     * failed open throws to the caller.
     */
    method GetRequestDetailById(id: string, opens: bool) returns (result: Result<Option<Row>, string>)
      requires Consistent()
      modifies this`shutdownRegistered
      ensures shutdownRegistered == (old(shutdownRegistered) || opens)
      ensures result.Ok? <==> shutdownRegistered
      ensures result.Err? ==> result.error == OpenFailure
      ensures result.Ok? ==> (result.value.Some? <==> id in rows)
      ensures result.Ok? && result.value.Some? ==> result.value.value == rows[id] && result.value.value.id == id
    {
      var open := OpenDatabase(opens);
      if !open {
        return Err(OpenFailure);
      }
      result := Ok(if id in rows then Some(rows[id]) else None);
    }
  }

  // ---------------------------------------------------------------------------
  // Properties across operations
  // ---------------------------------------------------------------------------

  /**
   * Visibility after a committed flush: the row written for the last item
   * of the batch carrying an id is what the table holds under that id,
   * unless the retention trim dropped it, which happens only when the table
   * is at its cap and every row kept is at least as new.
   */
  lemma FlushedRowReadable(before: Table, items: seq<Detail>, env: FlushEnv, stringify: Stringify, after: Table, i: nat)
    requires Committed(before, items, env, stringify, after)
    requires StorageOk(env)
    requires BatchRows(items, env.reading, stringify, env.config.maxJsonSize).Ok?
    requires LastWithId(BatchRows(items, env.reading, stringify, env.config.maxJsonSize).value, i)
    ensures var row := BatchRows(items, env.reading, stringify, env.config.maxJsonSize).value[i];
            || (row.id in after && after[row.id] == row)
            || (|after| == env.config.maxRecords && forall k :: k in after ==> after[k].timestamp >= row.timestamp)
  {
    var batch := BatchRows(items, env.reading, stringify, env.config.maxJsonSize).value;
    var u := UpsertAll(before, batch);
    UpsertAllLastWins(before, batch);
    var row := batch[i];
    if row.id !in after {
      StrictSubsetCard(after.Keys, u.Keys, row.id);
      forall k | k in after
        ensures after[k].timestamp >= row.timestamp
      {
        assert after[k] == u[k];
      }
    }
  }

  /** A row is written for every item when nothing throws and the storage commits. */
  lemma BatchSucceeds(items: seq<Detail>, reading: nat -> ItemReading, stringify: Stringify, maxJsonSize: int)
    requires forall j :: stringify(j).Ok?
    ensures BatchRows(items, reading, stringify, maxJsonSize).Ok?
  {
    BatchFailsIffItemFails(items, reading, stringify, maxJsonSize);
    forall i | 0 <= i < |items|
      ensures ItemRow(items[i], reading(i), stringify, maxJsonSize).Ok?
    {
      var p := PrepareDetail(items[i], reading(i));
      assert SafeJsonStringify(stringify, OrEmptyObject(p.request), maxJsonSize).Ok?;
      assert SafeJsonStringify(stringify, OrEmptyObject(p.providerRequest), maxJsonSize).Ok?;
      assert SafeJsonStringify(stringify, OrEmptyObject(p.providerResponse), maxJsonSize).Ok?;
      assert SafeJsonStringify(stringify, OrEmptyObject(p.response), maxJsonSize).Ok?;
    }
  }

  /**
   * The size trigger hitting during a running flush, with a batch size of 2:
   * the timer's flush takes the first detail; two more arrive before it
   * completes; the second reaches the batch size, so the flush is attempted,
   * does nothing, and the timer is cancelled. Once the running flush has
   * completed, both later details wait in the buffer with no timer pending
   * and no flush running.
   */
  method StrandedDuringFlush(stringify: Stringify, a: Detail, b: Detail, c: Detail, env: FlushEnv)
    returns (stranded: seq<Detail>, timerPending: bool, flushing: bool)
    ensures stranded == [b, c] && !timerPending && !flushing
  {
    var config := DefaultConfig.(batchSize := 2);
    var store := new Store(map[], stringify);
    store.Save(a, config, env);
    store.TimerFire();
    store.Save(b, config, env);
    store.Save(c, config, env);
    store.CompleteFlush(env);
    stranded, timerPending, flushing := store.buffer, store.timerPending, store.flushing;
  }

  /** The id a detail without one gets from the reading for its batch index. */
  function FreshId(d: Detail, c: ItemReading): string {
    GenerateDetailId(d.model, c.nowIso, c.random)
  }

  /** A committed batch of two new details into an empty table under a cap of at least 2 holds both. */
  lemma TwoDetailsCommitted(a: Detail, b: Detail, env: FlushEnv, stringify: Stringify, after: Table)
    requires forall j :: stringify(j).Ok?
    requires StorageOk(env) && env.config.maxRecords >= 2
    requires !Present(a.id) && !Present(b.id) && a.timestamp.None? && b.timestamp.None?
    requires FreshId(a, env.reading(0)) != FreshId(b, env.reading(1))
    requires Committed(map[], [a, b], env, stringify, after)
    ensures after.Keys == {FreshId(a, env.reading(0)), FreshId(b, env.reading(1))}
    ensures after[FreshId(a, env.reading(0))].timestamp == env.reading(0).nowMillis
    ensures after[FreshId(b, env.reading(1))].timestamp == env.reading(1).nowMillis
  {
    BatchSucceeds([a, b], env.reading, stringify, env.config.maxJsonSize);
    var batch := BatchRows([a, b], env.reading, stringify, env.config.maxJsonSize).value;
    assert ItemRow(a, env.reading(0), stringify, env.config.maxJsonSize) == Ok(batch[0]);
    assert ItemRow(b, env.reading(1), stringify, env.config.maxJsonSize) == Ok(batch[1]);
    var u := UpsertAll(map[], batch);
    assert batch[..1][..0] == [];
    assert UpsertAll(map[], batch[..1]) == map[batch[0].id := batch[0]];
    assert u == map[batch[0].id := batch[0], batch[1].id := batch[1]];
    SubsetSameSize(after.Keys, u.Keys);
  }

  /** Listing two matching rows newest first puts the newer one first. */
  lemma ListingOfTwo(listing: seq<Row>, t: Table, f: QueryFilter, newer: string, older: string)
    requires ListsMatches(listing, t, f)
    requires MatchingIds(t, f) == {newer, older} && newer != older
    requires t[newer].timestamp > t[older].timestamp
    ensures |listing| == 2 && listing[0].id == newer && listing[1].id == older
  {
    assert |listing| == 2;
    assert listing[0].id in Ids(listing) && listing[1].id in Ids(listing);
    assert listing[0].timestamp >= listing[1].timestamp;
  }

  /** A fresh store fed two details with a batch size of 2: the second save flushes both. */
  method SaveTwo(stringify: Stringify, a: Detail, b: Detail, env: FlushEnv) returns (store: Store)
    ensures fresh(store) && store.Consistent()
    ensures store.buffer == [] && !store.timerPending
    ensures store.shutdownRegistered == env.opens
    ensures Committed(map[], [a, b], env, stringify, store.rows)
  {
    store := new Store(map[], stringify);
    var config := DefaultConfig.(batchSize := 2);
    store.Save(a, config, env);
    assert store.cachedConfig == Some(config) && store.buffer == [a] && !store.flushing && store.rows == map[];
    store.Save(b, config, env);
    assert [a] + [b] == [a, b];
    assert OnceOpen(env, false) == env;
  }

  /**
   * A database that cannot be opened registers no shutdown handler. The
   * timer's flush of the first detail loses it, and a detail saved afterwards
   * is still buffered, with its timer pending, after a termination signal,
   * which flushes nothing.
   */
  method FailedOpenSkipsShutdownFlush(stringify: Stringify, a: Detail, b: Detail, env: FlushEnv)
    returns (buffered: seq<Detail>, rows: Table, registered: bool, timerPending: bool)
    requires !env.opens
    ensures buffered == [b] && rows == map[] && !registered && timerPending
  {
    var store := new Store(map[], stringify);
    var config := DefaultConfig.(batchSize := 2);
    store.Save(a, config, env);
    store.TimerFire();
    store.CompleteFlush(env);
    store.Save(b, config, env);
    store.Shutdown(env);
    buffered, rows, registered, timerPending := store.buffer, store.rows, store.shutdownRegistered, store.timerPending;
  }

  /** The unfiltered first page of ten over a table of two rows lists the newer one first. */
  lemma FirstPageOfTwo(page: PageResult, listing: seq<Row>, t: Table, f: QueryFilter, newer: string, older: string)
    requires f == QueryFilter(None, None, None, None, None, None, 1, 10)
    requires t.Keys == {newer, older} && newer != older
    requires t[newer].timestamp > t[older].timestamp
    requires ListsMatches(listing, t, f)
    requires page.details == listing[PageBounds(|listing|, EffectivePage(f), EffectivePageSize(f)).0..PageBounds(|listing|, EffectivePage(f), EffectivePageSize(f)).1]
    requires page.pagination == PaginationFor(|MatchingIds(t, f)|, EffectivePage(f), EffectivePageSize(f))
    ensures |page.details| == 2 && page.details[0].id == newer && page.details[1].id == older
    ensures page.pagination.totalItems == 2 && page.pagination.totalPages == 1
  {
    assert MatchingIds(t, f) == t.Keys;
    ListingOfTwo(listing, t, f, newer, older);
    assert PageBounds(2, 1, 10) == (0, 2);
    assert CeilDiv(2, 10) == 1;
  }

  /**
   * Two details without id or timestamp and a batch size of 2: the second
   * save flushes exactly both, and the first page of ten lists both, newest
   * first.
   */
  method BatchOfTwo(stringify: Stringify, a: Detail, b: Detail, env: FlushEnv)
    returns (page: PageResult)
    requires forall j :: stringify(j).Ok?
    requires StorageOk(env) && env.config.maxRecords >= 2
    requires !Present(a.id) && !Present(b.id) && a.timestamp.None? && b.timestamp.None?
    requires FreshId(a, env.reading(0)) != FreshId(b, env.reading(1))
    requires env.reading(0).nowMillis < env.reading(1).nowMillis
    ensures |page.details| == 2
    ensures page.details[0].id == FreshId(b, env.reading(1))
    ensures page.details[1].id == FreshId(a, env.reading(0))
    ensures page.pagination.totalItems == 2 && page.pagination.totalPages == 1
  {
    var store := SaveTwo(stringify, a, b, env);
    TwoDetailsCommitted(a, b, env, stringify, store.rows);
    var filter := QueryFilter(None, None, None, None, None, None, 1, 10);
    var result;
    ghost var listing;
    result, listing := store.GetRequestDetails(filter, env.opens);
    page := result.value;
    FirstPageOfTwo(page, listing, store.rows, filter, FreshId(b, env.reading(1)), FreshId(a, env.reading(0)));
  }
}
