/** The request middleware: the response writer that captures the status code, the
    API-key guard, the analytics record and its bounded queue with the worker that drains
    it, and the metric instruments with their registration and per-request updates. */
module Middleware {
  import opened Wrappers
  import Strings
  import Strconv
  import Headers
  import Classify
  import Paths
  import RuntimeMetrics

  /** The header carrying the API key. */
  const ApiKeyHeader := "x-url-redirect-token"
  /** The capacity of the analytics channel. */
  const AnalyticsCapacity := 1000

  // ---------------------------------------------------------------------------------
  // Capturing the response status

  /** One call a handler makes on the response writer it is given. */
  datatype WriterCall = WriteHeaderCall(code: int) | WriteCall(data: string)

  /** The codes of the `WriteHeader` calls, in order. */
  function HeaderCodes(calls: seq<WriterCall>): seq<int>
  {
    if calls == [] then []
    else (if calls[0].WriteHeaderCall? then [calls[0].code] else []) + HeaderCodes(calls[1..])
  }

  /** The data of the `Write` calls, concatenated. */
  function BodyOf(calls: seq<WriterCall>): string
  {
    if calls == [] then ""
    else (if calls[0].WriteCall? then calls[0].data else "") + BodyOf(calls[1..])
  }

  /** The last code written, or 0 when there is none. */
  function LastOr0(codes: seq<int>): int
  {
    if codes == [] then 0 else codes[|codes| - 1]
  }

  /** The status a fresh `AppResponseWriter` reports after the handler's calls. */
  function CapturedStatus(calls: seq<WriterCall>): int
  {
    LastOr0(HeaderCodes(calls))
  }

  lemma {:induction false} HeaderCodesAppend(a: seq<WriterCall>, b: seq<WriterCall>)
    ensures HeaderCodes(a + b) == HeaderCodes(a) + HeaderCodes(b)
    ensures BodyOf(a + b) == BodyOf(a) + BodyOf(b)
  {
    if a != [] {
      assert (a + b)[1..] == a[1..] + b;
      HeaderCodesAppend(a[1..], b);
    } else {
      assert a + b == b;
    }
  }

  /** The captured status is 0 until `WriteHeader` is called, a later `WriteHeader`
      overwrites an earlier one, and `Write` leaves it as it was. */
  lemma CapturedStatusRules(calls: seq<WriterCall>, code: int, data: string)
    ensures CapturedStatus([]) == 0
    ensures CapturedStatus(calls + [WriteHeaderCall(code)]) == code
    ensures CapturedStatus(calls + [WriteCall(data)]) == CapturedStatus(calls)
  {
    HeaderCodesAppend(calls, [WriteHeaderCall(code)]);
    HeaderCodesAppend(calls, [WriteCall(data)]);
    assert HeaderCodes([WriteCall(data)]) == [];
    assert HeaderCodes(calls + [WriteCall(data)]) == HeaderCodes(calls);
  }

  /** A handler that only writes a body is reported with status 0, not 200. */
  lemma BodyOnlyReportsZero(data: string)
    ensures CapturedStatus([WriteCall(data)]) == 0
  {
    assert HeaderCodes([WriteCall(data)]) == [];
  }

  /** `AppResponseWriter`: it remembers the last status code passed to `WriteHeader` and
      forwards the call to the writer it wraps; `Write` goes straight to that writer. */
  class AppResponseWriter {
    var statusCode: int
    /** The status codes the wrapped writer has received, in order. */
    var headersWritten: seq<int>
    /** The bytes the wrapped writer has received. */
    var body: string

    ghost predicate Valid()
      reads this
    {
      statusCode == LastOr0(headersWritten)
    }

    /** `&AppResponseWriter{ResponseWriter: w}`: the status field starts at zero. */
    constructor ()
      ensures Valid()
      ensures statusCode == 0 && headersWritten == [] && body == ""
    {
      statusCode := 0;
      headersWritten := [];
      body := "";
    }

    method WriteHeader(code: int)
      requires Valid()
      modifies this
      ensures Valid()
      ensures statusCode == code
      ensures headersWritten == old(headersWritten) + [code] && body == old(body)
    {
      statusCode := code;
      headersWritten := headersWritten + [code];
    }

    /** The promoted `Write` of the wrapped writer: the status field is not touched. */
    method Write(data: string)
      requires Valid()
      modifies this
      ensures Valid()
      ensures body == old(body) + data
      ensures statusCode == old(statusCode) && headersWritten == old(headersWritten)
    {
      body := body + data;
    }

    /** `Status()`: the last code written, 0 before any. */
    function Status(): (s: int)
      reads this
      requires Valid()
      ensures s == LastOr0(headersWritten)
    {
      statusCode
    }
  }

  /** `next.ServeHTTP(&AppResponseWriter{ResponseWriter: w}, r)`: a fresh capturing writer
      and the handler run on it. */
  method Serve(calls: seq<WriterCall>) returns (w: AppResponseWriter)
    ensures fresh(w) && w.Valid()
    ensures w.headersWritten == HeaderCodes(calls) && w.body == BodyOf(calls)
    ensures w.Status() == CapturedStatus(calls)
  {
    w := new AppResponseWriter();
    RunHandler(w, calls);
  }

  /** `next.ServeHTTP(w, r)`: the handler makes its calls on the writer, once. */
  method RunHandler(w: AppResponseWriter, calls: seq<WriterCall>)
    requires w.Valid() && w.headersWritten == [] && w.body == ""
    modifies w
    ensures w.Valid()
    ensures w.headersWritten == HeaderCodes(calls) && w.body == BodyOf(calls)
    ensures w.Status() == CapturedStatus(calls)
  {
    for i := 0 to |calls|
      invariant w.Valid()
      invariant w.headersWritten == HeaderCodes(calls[..i]) && w.body == BodyOf(calls[..i])
    {
      HeaderCodesAppend(calls[..i], [calls[i]]);
      assert calls[..i + 1] == calls[..i] + [calls[i]];
      match calls[i] {
        case WriteHeaderCall(code) => w.WriteHeader(code);
        case WriteCall(data) => w.Write(data);
      }
    }
    assert calls[..|calls|] == calls;
  }

  // ---------------------------------------------------------------------------------
  // The API key guard

  /** No position is skipped: the comparison looks at every byte whatever it finds. */
  function AnyDifference(x: string, y: string, i: nat, acc: bool): (d: bool)
    requires |x| == |y| && i <= |x|
    ensures d <==> acc || exists k :: i <= k < |x| && x[k] != y[k]
    decreases |x| - i
  {
    if i == |x| then acc else AnyDifference(x, y, i + 1, acc || x[i] != y[i])
  }

  /** `subtle.ConstantTimeCompare(x, y)`: 1 when the two have the same length and the same
      contents, 0 otherwise. Its timing is not modelled. */
  function ConstantTimeCompare(x: string, y: string): (r: int)
    ensures r == 0 || r == 1
    ensures r == 1 <==> x == y
  {
    if |x| != |y| then 0 else if AnyDifference(x, y, 0, false) then 0 else 1
  }

  /** What `verifyApiKey` does with a request: pass it on, or answer it itself. */
  datatype AuthDecision = ServeNext | Respond(calls: seq<WriterCall>)

  /** `verifyApiKey`: the next handler runs only when the token header equals the key;
      otherwise `http.Error` answers 401 with the body "Error" and a newline. */
  function VerifyApiKey(h: Headers.Header, apiKey: string): (d: AuthDecision)
    ensures d == ServeNext <==> Headers.Get(h, ApiKeyHeader) == apiKey
    ensures d.Respond? ==> d.calls == [WriteHeaderCall(Classify.StatusUnauthorized), WriteCall(Paths.ErrorMessage + "\n")]
  {
    var apiKeyHeader := Headers.Get(h, ApiKeyHeader);
    if ConstantTimeCompare(apiKeyHeader, apiKey) != 1 then
      Respond([WriteHeaderCall(Classify.StatusUnauthorized), WriteCall(Paths.ErrorMessage + "\n")])
    else ServeNext
  }

  /** A rejected request is seen downstream with status 401. */
  lemma RejectionIs401(h: Headers.Header, apiKey: string)
    requires VerifyApiKey(h, apiKey).Respond?
    ensures CapturedStatus(VerifyApiKey(h, apiKey).calls) == Classify.StatusUnauthorized
  {
    var calls := VerifyApiKey(h, apiKey).calls;
    assert HeaderCodes(calls[1..]) == [] by {
      assert calls[1..][1..] == [];
    }
  }

  /** With an empty key configured, a request without the header is let through. */
  lemma EmptyKeyAdmitsMissingHeader(h: Headers.Header)
    requires Headers.CanonicalMIMEHeaderKey(ApiKeyHeader) !in h
    ensures VerifyApiKey(h, "") == ServeNext
  {
  }

  // ---------------------------------------------------------------------------------
  // Analytics

  /** `AnalyticsLog`: one record per logged request. */
  datatype AnalyticsLog = AnalyticsLog(path: string, status: int, processingTime: int, additionalHeaders: string)

  /** The value of each configured header in the request, "" for a missing one. */
  function HeaderValues(h: Headers.Header, names: seq<string>): (vs: seq<string>)
    ensures |vs| == |names|
  {
    seq(|names|, k requires 0 <= k < |names| => Headers.Get(h, names[k]))
  }

  /** The loop that fills `additionalHeaders`, one slot per configured header, looking each
      up under its canonical name. */
  method AdditionalHeaders(h: Headers.Header, names: seq<string>) returns (values: seq<string>)
    ensures |values| == |names|
    ensures forall k :: 0 <= k < |names| ==> values[k] == Headers.Get(h, names[k])
  {
    var additionalHeaders := new string[|names|];
    for i := 0 to |names|
      invariant forall k :: 0 <= k < i ==> additionalHeaders[k] == Headers.Get(h, names[k])
    {
      Headers.GetCanonical(h, names[i]);
      additionalHeaders[i] := Headers.Get(h, Headers.CanonicalMIMEHeaderKey(names[i]));
    }
    values := additionalHeaders[..];
  }

  /** The record `logRequest` builds. */
  function LogEntry(path: string, calls: seq<WriterCall>, elapsedMs: int, h: Headers.Header, names: seq<string>): AnalyticsLog
  {
    AnalyticsLog(path, CapturedStatus(calls), elapsedMs, Strings.Join(HeaderValues(h, names), "|"))
  }

  /** The joined header values can be split back into one value per configured header, in
      order, as long as no value holds a '|'. */
  lemma AdditionalHeadersSplit(h: Headers.Header, names: seq<string>)
    requires |names| >= 1
    requires forall k :: 0 <= k < |names| ==> '|' !in Headers.Get(h, names[k])
    ensures Strings.Split(LogEntry("", [], 0, h, names).additionalHeaders, '|') == HeaderValues(h, names)
  {
    Strings.SplitJoin(HeaderValues(h, names), '|');
  }

  /** Of a run of records handed to the database, those whose insert succeeded, in order. */
  function Persisted(entries: seq<AnalyticsLog>, ok: seq<bool>): seq<AnalyticsLog>
    requires |entries| == |ok|
  {
    if entries == [] then []
    else (if ok[0] then [entries[0]] else []) + Persisted(entries[1..], ok[1..])
  }

  function CountFailed(ok: seq<bool>): nat
  {
    if ok == [] then 0 else (if ok[0] then 0 else 1) + CountFailed(ok[1..])
  }

  lemma {:induction false} PersistedAppend(e1: seq<AnalyticsLog>, o1: seq<bool>, e2: seq<AnalyticsLog>, o2: seq<bool>)
    requires |e1| == |o1| && |e2| == |o2|
    ensures Persisted(e1 + e2, o1 + o2) == Persisted(e1, o1) + Persisted(e2, o2)
  {
    if e1 == [] {
      assert e1 + e2 == e2 && o1 + o2 == o2;
    } else {
      var e, o := e1 + e2, o1 + o2;
      assert e[0] == e1[0] && o[0] == o1[0];
      assert e[1..] == e1[1..] + e2 && o[1..] == o1[1..] + o2;
      PersistedAppend(e1[1..], o1[1..], e2, o2);
      var head := if o1[0] then [e1[0]] else [];
      assert Persisted(e, o) == head + Persisted(e[1..], o[1..]);
      assert Persisted(e1, o1) == head + Persisted(e1[1..], o1[1..]);
    }
  }

  /** Every record the worker takes is either persisted or counted as a failed insert. */
  lemma {:induction false} PersistedAccounting(entries: seq<AnalyticsLog>, ok: seq<bool>)
    requires |entries| == |ok|
    ensures |Persisted(entries, ok)| + CountFailed(ok) == |entries|
  {
    if entries != [] {
      PersistedAccounting(entries[1..], ok[1..]);
    }
  }

  /** A failed insert does not hold up the records after it: every record whose insert
      succeeded is persisted, behind those before it. */
  lemma {:induction false} PersistedKeepsSuccesses(entries: seq<AnalyticsLog>, ok: seq<bool>, i: nat)
    requires |entries| == |ok| && i < |entries| && ok[i]
    ensures Persisted(entries, ok) ==
      Persisted(entries[..i], ok[..i]) + [entries[i]] + Persisted(entries[i + 1..], ok[i + 1..])
  {
    assert entries == entries[..i] + entries[i..] && ok == ok[..i] + ok[i..];
    PersistedAppend(entries[..i], ok[..i], entries[i..], ok[i..]);
    assert entries[i..][1..] == entries[i + 1..] && ok[i..][1..] == ok[i + 1..];
  }

  /** `analyticsChan` together with the table its worker inserts into. */
  class AnalyticsQueue {
    /** The records waiting in the channel, oldest first. */
    var buffer: seq<AnalyticsLog>
    /** The records the worker has inserted, in insertion order. */
    var inserted: seq<AnalyticsLog>

    ghost predicate Valid()
      reads this
    {
      |buffer| <= AnalyticsCapacity
    }

    /** `make(chan AnalyticsLog, 1000)`, with nothing inserted yet. */
    constructor ()
      ensures Valid() && buffer == [] && inserted == []
    {
      buffer := [];
      inserted := [];
    }

    /** `analyticsChan <- e`: the record is queued when there is room; when the channel is
        full the send would block, and nothing changes. */
    method Send(e: AnalyticsLog) returns (sent: bool)
      requires Valid()
      modifies this
      ensures Valid()
      ensures sent <==> |old(buffer)| < AnalyticsCapacity
      ensures buffer == if sent then old(buffer) + [e] else old(buffer)
      ensures inserted == old(inserted)
    {
      sent := |buffer| < AnalyticsCapacity;
      if sent {
        buffer := buffer + [e];
      }
    }

    /** The worker loop of `startAnalyticsWorker`, for as many records as `insertOk` has
        outcomes of the database insert (or as the channel holds, if fewer): records are
        taken oldest first, a failed insert is logged and the record dropped. */
    method Drain(insertOk: seq<bool>) returns (n: nat)
      requires Valid()
      modifies this
      ensures Valid()
      ensures n == if |insertOk| < |old(buffer)| then |insertOk| else |old(buffer)|
      ensures buffer == old(buffer)[n..]
      ensures inserted == old(inserted) + Persisted(old(buffer)[..n], insertOk[..n])
    {
      n := if |insertOk| < |buffer| then |insertOk| else |buffer|;
      ghost var taken := buffer;
      for i := 0 to n
        invariant buffer == taken[i..]
        invariant inserted == old(inserted) + Persisted(taken[..i], insertOk[..i])
      {
        var logEntry := buffer[0];
        buffer := buffer[1..];
        PersistedAppend(taken[..i], insertOk[..i], [logEntry], [insertOk[i]]);
        assert taken[..i + 1] == taken[..i] + [logEntry];
        assert insertOk[..i + 1] == insertOk[..i] + [insertOk[i]];
        if insertOk[i] {
          inserted := inserted + [logEntry];
        }
      }
    }
  }

  /** What `logRequest` did with its record. */
  datatype LogResult = Queued(entry: AnalyticsLog) | Skipped | BlockedOnSend(entry: AnalyticsLog)

  /** `logRequest`: the handler runs once on a capturing writer; unless the path is
      skipped, a record with the path, the captured status, the elapsed milliseconds and
      the joined header values is sent to the channel. The elapsed time is a parameter. */
  method LogRequest(q: AnalyticsQueue, path: string, h: Headers.Header, logHeaders: seq<string>,
                    calls: seq<WriterCall>, elapsedMs: int)
    returns (res: LogResult, w: AppResponseWriter)
    requires q.Valid()
    modifies q
    ensures q.Valid() && fresh(w) && w.Valid()
    ensures w.headersWritten == HeaderCodes(calls) && w.body == BodyOf(calls)
    ensures q.inserted == old(q.inserted)
    ensures Paths.SkipMiddleware(path) ==> res == Skipped && q.buffer == old(q.buffer)
    ensures !Paths.SkipMiddleware(path) ==>
      !res.Skipped? && res.entry == LogEntry(path, calls, elapsedMs, h, logHeaders) &&
      (res.Queued? <==> |old(q.buffer)| < AnalyticsCapacity) &&
      q.buffer == if res.Queued? then old(q.buffer) + [res.entry] else old(q.buffer)
  {
    var reqPath := path;
    w := Serve(calls);
    var processingTime := elapsedMs;
    if !Paths.SkipMiddleware(path) {
      var additionalHeaders := AdditionalHeaders(h, logHeaders);
      assert additionalHeaders == HeaderValues(h, logHeaders);
      var entry := AnalyticsLog(reqPath, w.Status(), processingTime, Strings.Join(additionalHeaders, "|"));
      var sent := q.Send(entry);
      res := if sent then Queued(entry) else BlockedOnSend(entry);
    } else {
      res := Skipped;
    }
  }

  // ---------------------------------------------------------------------------------
  // Metrics

  /** A runtime gauge: the help text it was created with and its current value. */
  datatype RuntimeGauge = RuntimeGauge(help: string, value: real)

  /** The names of the five fixed instruments, in registration order. */
  const FixedNames: seq<string> := [
    "http_requests_total", "requests_by_response_status", "http_response_status_time_ms",
    "http_active_requests", "api_request_duration"]

  /** The five fixed instrument names are pairwise distinct. */
  lemma FixedNamesDistinct()
    ensures forall i, j :: 0 <= i < j < |FixedNames| ==> FixedNames[i] != FixedNames[j]
  {
    forall i, j | 0 <= i < j < |FixedNames| ensures FixedNames[i] != FixedNames[j] {
      var a, b := FixedNames[i], FixedNames[j];
      if |a| == |b| {
        assert a[0] != b[0];
      }
    }
  }

  /** No fixed instrument name is the name of a runtime gauge. */
  lemma FixedNamesNotGauges()
    ensures forall k :: 0 <= k < |FixedNames| ==> FixedNames[k] !in MetricsList.Values
  {
    RuntimeMetrics.GaugePrefix();
    forall k | 0 <= k < |FixedNames| ensures FixedNames[k] !in MetricsList.Values {
      NotGaugeName(FixedNames[k], MetricsList.Values);
    }
  }

  /** No fixed instrument name starts with "go_". */
  lemma NotGaugeName(a: string, gauges: set<string>)
    requires a in FixedNames
    requires forall v :: v in gauges ==> |v| >= 3 && v[..3] == "go_"
    ensures a !in gauges
  {
    assert a[0] == 'h' || a[0] == 'r' || a[0] == 'a';
    assert a[..3][0] == a[0];
  }

  function FixedNameSet(): set<string>
  {
    set k | 0 <= k < |FixedNames| :: FixedNames[k]
  }

  const MetricsList := RuntimeMetrics.MetricsList

  /** The gauges after `g` receives the value of every entry of `m`. */
  function SetGauges(g: map<string, RuntimeGauge>, m: map<string, real>): (r: map<string, RuntimeGauge>)
    ensures r.Keys == g.Keys
  {
    map n | n in g :: if n in m then g[n].(value := m[n]) else g[n]
  }

  /** The old count under a label, 0 for a label not seen yet. */
  function CountOf(m: map<string, nat>, k: string): nat
  {
    if k in m then m[k] else 0
  }

  function ObservationsOf(m: map<(string, string), seq<int>>, k: (string, string)): seq<int>
  {
    if k in m then m[k] else []
  }

  /** The instruments and the registry they are registered with. */
  class Metrics {
    var totalRequests: nat
    var requestsByResponseStatus: map<string, nat>
    /** Observations of the duration histogram, by (handler label, status label). */
    var httpStatusDuration: map<(string, string), seq<int>>
    var activeRequests: int
    var apiLatency: seq<int>
    /** `runtimeMetricsGuages`, by gauge name. */
    var runtimeGauges: map<string, RuntimeGauge>
    /** Names registered with `metricsRegistry`. */
    var registered: set<string>

    /** Every runtime metric has its gauge. */
    ghost predicate Valid()
      reads this
    {
      MetricsList.Values <= runtimeGauges.Keys
    }

    /** The package-level variables before `initMetrics`. */
    constructor ()
      ensures totalRequests == 0 && requestsByResponseStatus == map[] && httpStatusDuration == map[]
      ensures activeRequests == 0 && apiLatency == [] && runtimeGauges == map[] && registered == {}
    {
      totalRequests := 0;
      requestsByResponseStatus := map[];
      httpStatusDuration := map[];
      activeRequests := 0;
      apiLatency := [];
      runtimeGauges := map[];
      registered := {};
    }

    /** `initRuntimeMetrics`: a gauge named after each value of `metricsList`, with its key
        as help text and value 0. */
    method InitRuntimeMetrics()
      modifies this`runtimeGauges
      ensures Valid()
      ensures runtimeGauges.Keys == old(runtimeGauges).Keys + MetricsList.Values
      ensures forall k :: k in MetricsList ==> runtimeGauges[MetricsList[k]] == RuntimeGauge(k, 0.0)
      ensures forall n :: n in old(runtimeGauges) && n !in MetricsList.Values ==> runtimeGauges[n] == old(runtimeGauges)[n]
    {
      RuntimeMetrics.MetricsListInjective();
      AddGauges(MetricsList);
    }

    /** The loop of `initRuntimeMetrics` over any map from metric keys to distinct gauge
        names, visited in map order. */
    method AddGauges(list: map<string, string>)
      requires forall a, b :: a in list && b in list && list[a] == list[b] ==> a == b
      modifies this`runtimeGauges
      ensures runtimeGauges.Keys == old(runtimeGauges).Keys + list.Values
      ensures forall k :: k in list ==> runtimeGauges[list[k]] == RuntimeGauge(k, 0.0)
      ensures forall n :: n in old(runtimeGauges) && n !in list.Values ==> runtimeGauges[n] == old(runtimeGauges)[n]
    {
      var remaining := list.Keys;
      ghost var done: set<string> := {};
      while remaining != {}
        invariant remaining <= list.Keys
        invariant done <= list.Values
        invariant forall k :: k in list && k !in remaining ==> list[k] in done
        invariant forall k :: k in remaining ==> list[k] !in done
        invariant runtimeGauges.Keys == old(runtimeGauges).Keys + done
        invariant forall k :: k in list && k !in remaining ==> runtimeGauges[list[k]] == RuntimeGauge(k, 0.0)
        invariant forall n :: n in old(runtimeGauges) && n !in done ==> runtimeGauges[n] == old(runtimeGauges)[n]
        decreases remaining
      {
        var k :| k in remaining;
        runtimeGauges := runtimeGauges[list[k] := RuntimeGauge(k, 0.0)];
        remaining := remaining - {k};
        done := done + {list[k]};
      }
      forall v | v in list.Values ensures v in done {
        var k :| k in list && list[k] == v;
      }
    }

    /** `metricsRegistry.MustRegister(c)`: a name already registered is a conflict, and
        `MustRegister` panics on it. */
    method MustRegister(name: string) returns (r: Outcome<()>)
      modifies this`registered
      ensures r.Ok? <==> name !in old(registered)
      ensures registered == if r.Ok? then old(registered) + {name} else old(registered)
    {
      if name in registered {
        return Panic("duplicate metrics collector registration attempted");
      }
      registered := registered + {name};
      return Ok(());
    }

    /** The request instruments hold the given values. */
    ghost predicate InstrumentsAre(total: nat, byStatus: map<string, nat>, durations: map<(string, string), seq<int>>,
                              active: int, latency: seq<int>)
      reads this
    {
      totalRequests == total && requestsByResponseStatus == byStatus &&
      httpStatusDuration == durations && activeRequests == active && apiLatency == latency
    }

    /** `initMetrics`: create the runtime gauges, then register the five fixed instruments
        and every runtime gauge (in map order); the first name already registered makes
        `MustRegister` panic. */
    method InitMetrics() returns (r: Outcome<()>)
      modifies this
      ensures Valid()
      ensures runtimeGauges.Keys == old(runtimeGauges).Keys + MetricsList.Values
      ensures forall k :: k in MetricsList ==> runtimeGauges[MetricsList[k]] == RuntimeGauge(k, 0.0)
      ensures forall n :: n in old(runtimeGauges) && n !in MetricsList.Values ==> runtimeGauges[n] == old(runtimeGauges)[n]
      ensures r.Ok? <==> NoConflict(old(registered), runtimeGauges.Keys)
      ensures r.Ok? ==> registered == old(registered) + FixedNameSet() + runtimeGauges.Keys
      ensures totalRequests == old(totalRequests) && requestsByResponseStatus == old(requestsByResponseStatus)
      ensures httpStatusDuration == old(httpStatusDuration) && activeRequests == old(activeRequests)
      ensures apiLatency == old(apiLatency)
    {
      InitRuntimeMetrics();
      FixedNamesDistinct();
      FixedNamesNotGauges();
      r := RegisterInOrder(FixedNames);
      if r.Panic? {
        return;
      }
      r := RegisterEach(runtimeGauges.Keys);
    }

    /** `MustRegister` on each name of `names` in turn, stopping at the first panic. */
    method RegisterInOrder(names: seq<string>) returns (r: Outcome<()>)
      requires forall i, j :: 0 <= i < j < |names| ==> names[i] != names[j]
      modifies this`registered
      ensures r.Ok? <==> forall k :: 0 <= k < |names| ==> names[k] !in old(registered)
      ensures r.Ok? ==> registered == old(registered) + set k | 0 <= k < |names| :: names[k]
    {
      r := Ok(());
      for i := 0 to |names|
        invariant r.Ok?
        invariant registered == old(registered) + set k | 0 <= k < i :: names[k]
        invariant forall k :: 0 <= k < i ==> names[k] !in old(registered)
      {
        r := MustRegister(names[i]);
        if r.Panic? {
          assert names[i] in old(registered);
          return;
        }
      }
    }

    /** `MustRegister` on each name of `names`, in map order, stopping at the first panic. */
    method RegisterEach(names: set<string>) returns (r: Outcome<()>)
      modifies this`registered
      ensures r.Ok? <==> old(registered) !! names
      ensures r.Ok? ==> registered == old(registered) + names
    {
      var remaining := names;
      while remaining != {}
        invariant remaining <= names
        invariant registered == old(registered) + (names - remaining)
        invariant old(registered) !! (names - remaining)
        decreases remaining
      {
        var name :| name in remaining;
        r := MustRegister(name);
        if r.Panic? {
          return;
        }
        remaining := remaining - {name};
      }
      r := Ok(());
    }

    /** `runtimeMetricsGuages[k].Set(v)` for every entry of `m`. */
    method SetRuntimeGauges(m: map<string, real>)
      requires m.Keys <= runtimeGauges.Keys
      modifies this`runtimeGauges
      ensures runtimeGauges == SetGauges(old(runtimeGauges), m)
    {
      ghost var before := runtimeGauges;
      var remaining := m.Keys;
      while remaining != {}
        invariant remaining <= m.Keys
        invariant runtimeGauges.Keys == before.Keys
        invariant forall n :: n in before ==>
          runtimeGauges[n] == if n in m && n !in remaining then before[n].(value := m[n]) else before[n]
        decreases remaining
      {
        var runtimeMetricKey :| runtimeMetricKey in remaining;
        runtimeGauges := runtimeGauges[runtimeMetricKey := runtimeGauges[runtimeMetricKey].(value := m[runtimeMetricKey])];
        remaining := remaining - {runtimeMetricKey};
      }
    }

    /** The counting part of `prometheusMiddleware` for a path that is not skipped. */
    method CountRequest(reqPath: string, status: int, endTime: int)
      modifies this`totalRequests, this`requestsByResponseStatus, this`httpStatusDuration, this`apiLatency
      ensures Counted(old(totalRequests), old(requestsByResponseStatus), old(httpStatusDuration), old(apiLatency),
                      reqPath, status, endTime)
    {
      totalRequests := totalRequests + 1;
      var statusCode := Strconv.Itoa(status);
      requestsByResponseStatus :=
        requestsByResponseStatus[statusCode := CountOf(requestsByResponseStatus, statusCode) + 1];
      var fn := Classify.GetRequestFunction(reqPath, status);
      var reqFunc, isApiReq := fn.0, fn.1;
      httpStatusDuration :=
        httpStatusDuration[(reqFunc, statusCode) := ObservationsOf(httpStatusDuration, (reqFunc, statusCode)) + [endTime]];
      if isApiReq {
        apiLatency := apiLatency + [endTime];
      }
    }

    /** The part of `prometheusMiddleware` after the handler, for a path that is not
        skipped: count the request, then set the runtime gauges, unless
        `getRuntimeMetrics` panics. */
    method ObserveRequest(reqPath: string, status: int, endTime: int,
                          order: seq<string>, read: map<string, RuntimeMetrics.SampleValue>)
      returns (r: Outcome<()>)
      requires Valid()
      requires RuntimeMetrics.EnumeratesKeys(order)
      requires forall k :: 0 <= k < |order| ==> order[k] in read
      requires forall k :: 0 <= k < |order| ==>
        RuntimeMetrics.WellFormed(RuntimeMetrics.Sample(order[k], read[order[k]]))
      modifies this`totalRequests, this`requestsByResponseStatus, this`httpStatusDuration, this`apiLatency,
               this`runtimeGauges
      ensures Valid()
      ensures Counted(old(totalRequests), old(requestsByResponseStatus), old(httpStatusDuration), old(apiLatency),
                      reqPath, status, endTime)
      ensures
        var runtime := RuntimeMetrics.Convert(RuntimeMetrics.ReadSamples(order, read));
        (r.Ok? <==> runtime.Ok?) &&
        runtimeGauges == if r.Ok? then SetGauges(old(runtimeGauges), runtime.value) else old(runtimeGauges)
    {
      CountRequest(reqPath, status, endTime);
      var runtime := RuntimeMetrics.GetRuntimeMetrics(order, read);
      if runtime.Panic? {
        return Panic(runtime.reason);
      }
      SetRuntimeGauges(runtime.value);
      return Ok(());
    }

    /** `prometheusMiddleware`: the active-request gauge goes up, the handler runs once
        on a capturing writer, and unless the path is skipped the request is counted, its
        status counted, its duration observed under its handler and status labels (and in
        the API summary for an API path), and every runtime gauge set from
        `getRuntimeMetrics`; then the active-request gauge goes down. The decrement is not
        deferred: when `getRuntimeMetrics` panics it never happens. */
    method PrometheusMiddleware(path: string, calls: seq<WriterCall>, elapsedMs: int,
                                order: seq<string>, read: map<string, RuntimeMetrics.SampleValue>)
      returns (r: Outcome<()>, w: AppResponseWriter)
      requires Valid()
      requires RuntimeMetrics.EnumeratesKeys(order)
      requires forall k :: 0 <= k < |order| ==> order[k] in read
      requires forall k :: 0 <= k < |order| ==>
        RuntimeMetrics.WellFormed(RuntimeMetrics.Sample(order[k], read[order[k]]))
      modifies this
      ensures Valid() && fresh(w) && w.Valid()
      ensures w.headersWritten == HeaderCodes(calls) && w.body == BodyOf(calls)
      ensures registered == old(registered)
      ensures Paths.SkipMiddleware(path) ==>
        r == Ok(()) && runtimeGauges == old(runtimeGauges) &&
        InstrumentsAre(old(totalRequests), old(requestsByResponseStatus), old(httpStatusDuration),
                  old(activeRequests), old(apiLatency))
      ensures !Paths.SkipMiddleware(path) ==>
        var runtime := RuntimeMetrics.Convert(RuntimeMetrics.ReadSamples(order, read));
        Counted(old(totalRequests), old(requestsByResponseStatus), old(httpStatusDuration), old(apiLatency),
                path, CapturedStatus(calls), elapsedMs) &&
        (r.Ok? <==> runtime.Ok?) &&
        runtimeGauges == (if r.Ok? then SetGauges(old(runtimeGauges), runtime.value) else old(runtimeGauges)) &&
        activeRequests == if r.Ok? then old(activeRequests) else old(activeRequests) + 1
    {
      activeRequests := activeRequests + 1;
      var reqPath := path;
      w := Serve(calls);
      var endTime := elapsedMs;
      r := Ok(());
      if !Paths.SkipMiddleware(reqPath) {
        r := ObserveRequest(reqPath, w.Status(), endTime, order, read);
        if r.Panic? {
          return;
        }
      }
      activeRequests := activeRequests - 1;
    }

    /** The request instruments, from the given earlier values, after one request to
        `reqPath` that ended with `status` after `endTime` milliseconds. */
    ghost predicate Counted(total: nat, byStatus: map<string, nat>, durations: map<(string, string), seq<int>>,
                            latency: seq<int>, reqPath: string, status: int, endTime: int)
      reads this`totalRequests, this`requestsByResponseStatus, this`httpStatusDuration, this`apiLatency
    {
      var code := Strconv.Itoa(status);
      var fn := Classify.GetRequestFunction(reqPath, status);
      totalRequests == total + 1 &&
      requestsByResponseStatus == byStatus[code := CountOf(byStatus, code) + 1] &&
      httpStatusDuration == durations[(fn.0, code) := ObservationsOf(durations, (fn.0, code)) + [endTime]] &&
      apiLatency == latency + (if fn.1 then [endTime] else [])
    }
  }

  /** No name is registered twice: the fixed names, the runtime gauges and what was there
      before are pairwise apart. */
  ghost predicate NoConflict(before: set<string>, gauges: set<string>)
  {
    (forall k :: 0 <= k < |FixedNames| ==> FixedNames[k] !in before && FixedNames[k] !in gauges) &&
    before !! gauges
  }

  /** At startup nothing is registered yet, so `initMetrics` registers every instrument
      and every runtime gauge without a conflict. */
  lemma StartupHasNoConflict()
    ensures NoConflict({}, MetricsList.Values)
  {
    FixedNamesDistinct();
    FixedNamesNotGauges();
  }
}
