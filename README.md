# url-redirect: request telemetry pipeline, modelled in Dafny

This project models the middleware pipeline of the `url-redirect` service. The pipeline wraps
every HTTP request. It comes from two Go files, `app/middleware.go` and `app/utils.go`:

- **Response capture** (`AppResponseWriter`): a writer that remembers the status code the
  handler passes to `WriteHeader`.
- **API-key guard** (`verifyApiKey`): a request reaches the handler only when its
  `x-url-redirect-token` header equals the configured key. Otherwise it gets a 401.
- **Analytics** (`logRequest`, `analyticsChan`, `startAnalyticsWorker`):
  - Each request not on a skipped path produces an `AnalyticsLog` record: path, captured
    status, elapsed milliseconds, and the configured extra headers joined with `|`.
  - The record is sent to a channel with room for 1000 records.
  - A single worker inserts records into the database in FIFO order. A failed insert is
    logged and the record dropped.
- **Prometheus instruments** (`prometheusMiddleware`, `initMetrics`, `initRuntimeMetrics`):
  - a request counter, and a counter per status label
  - a duration histogram labelled by request function and status
  - an active-request gauge, and a latency summary for API paths
  - one gauge per runtime metric of `metricsList`
- **Request classification** (`getRequestFunction`): a status code and path become a label
  such as `redirect`, `request_client_error` or `api_not_found`.
- **Runtime sampling** (`getRuntimeMetrics`, `medianBucket`): runtime samples become gauge
  values. A histogram becomes the boundary of the bucket where the running count first
  reaches half the total.
- **Path helpers**: `skipMiddleware`, `validateAndFormatURL`, `validateAndFormatPath`,
  `buildUri`, `generateShortRedirectPath`.

Modules:

- `Wrappers` defines `Option`, and `Outcome` with its `Panic` case for Go panics.
- `Strings`, `Strconv` and `Headers` model the library calls the core depends on:
  - `strings.Contains`, `Trim`, `Join` and `Cut`, and `Split`, modelled as the inverse of
    `Join` and as the `&`-splitting of the raw query
  - `strconv.Atoi` and `strconv.Itoa`
  - `textproto.CanonicalMIMEHeaderKey` and `http.Header.Get`
- `Classify`, `Paths` and `RuntimeMetrics` hold the `utils.go` functions.
- `Middleware` holds `middleware.go`. There:
  - `AppResponseWriter`, `AnalyticsQueue` and `Metrics` are classes whose methods update
    the state the Go code mutates.
  - The handler is a finite sequence of calls on the writer (`WriterCall`) that returns
    normally; a panicking handler is not modelled.
  - The clock, the random source, `metrics.Read`, `url.ParseRequestURI` and the database's
    insert results are parameters.

Behaviour of the code worth noting:

- **Status without `WriteHeader`.** A handler that writes a body without calling
  `WriteHeader` is reported with status 0. Its histogram label is `request_misc`
  (`api_request_misc` on an API path) and its status label is `"0"`. `Write` is not intercepted.
- **Full channel.** A send to a full analytics channel blocks until the worker takes a
  record. `LogRequest` reports this case as `BlockedOnSend` and changes nothing.
- **One latency summary.** The only latency summary is the API summary, observed for
  paths containing "api/".
- **Empty histogram.** If every count is zero, `medianBucket` returns the first bucket
  boundary. It panics only when there are no counts at all.
- **No deferred decrement.** The active-request gauge is decremented without `defer`. A
  panic in `getRuntimeMetrics` leaves it one higher.
- **Statuses 309–399 are misc.** They are labelled `request_misc`, as are 209–299 and the
  codes that fall between the named bands.

## Model

| member | source | states |
|---|---|---|
| Middleware.AppResponseWriter.constructor | app/middleware.go:146 | a fresh capturing writer has status 0 and has forwarded nothing |
| Middleware.AppResponseWriter.WriteHeader | app/middleware.go:79-82 | the status becomes the code, and the code is forwarded to the wrapped writer once |
| Middleware.AppResponseWriter.Write | app/middleware.go:30-33 | the body is passed through; the captured status and forwarded codes are unchanged |
| Middleware.AppResponseWriter.Status | app/middleware.go:84-86 | the status is the last code forwarded, or 0 if none was |
| Middleware.CapturedStatusRules | app/middleware.go:79-86 | the captured status starts at 0, a later WriteHeader overrides an earlier one, and Write leaves it alone |
| Middleware.BodyOnlyReportsZero | app/middleware.go:79-86 | a handler that only writes a body is reported with status 0 |
| Middleware.RunHandler | app/middleware.go:147 | after the handler's calls, the writer has forwarded exactly their codes and body, and reports the captured status |
| Middleware.Serve | app/middleware.go:146-147 | a fresh writer run through the handler reports CapturedStatus of its calls |
| Middleware.ConstantTimeCompare | app/middleware.go:133 | the result is 1 exactly when both byte strings are equal, and 0 otherwise |
| Middleware.AnyDifference | app/middleware.go:133 | the accumulated flag is true exactly when some remaining position differs |
| Middleware.VerifyApiKey | app/middleware.go:130-139 | the next handler runs if and only if the token header equals the key; otherwise the response is WriteHeader(401) followed by "Error\n" |
| Middleware.RejectionIs401 | app/middleware.go:134 | a rejected request is seen with status 401 |
| Middleware.EmptyKeyAdmitsMissingHeader | app/middleware.go:132-133 | with an empty key configured, a request without the token header is admitted |
| Middleware.HeaderValues | app/middleware.go:151-154 | one value per configured header, the request's value for it or "" |
| Middleware.AdditionalHeaders | app/middleware.go:151-154 | slot i holds the value of configured header i (looked up canonically), "" when it is absent |
| Middleware.AdditionalHeadersSplit | app/middleware.go:160 | if no value contains '\|', splitting the joined field at '\|' gives back the values in order |
| Middleware.LogEntry | app/middleware.go:156-161 | the record holds the request path, the captured status, the elapsed ms and the header values joined with '\|'; AdditionalHeadersSplit recovers the values |
| Middleware.Persisted | app/middleware.go:113-117 | the records whose insert succeeded, in channel order; pinned by the Persisted lemmas |
| Middleware.PersistedAppend | app/middleware.go:113-117 | the inserted records of two consecutive runs are the inserted records of each run, concatenated |
| Middleware.PersistedAccounting | app/middleware.go:113-117 | every record taken is either inserted or counted as a failed insert |
| Middleware.PersistedKeepsSuccesses | app/middleware.go:113-117 | a successfully inserted record lands after the earlier ones, whatever failed before it |
| Middleware.AnalyticsQueue.constructor | app/middleware.go:26 | the channel starts empty and nothing has been inserted |
| Middleware.AnalyticsQueue.Send | app/middleware.go:156-161 | a record is appended if and only if fewer than 1000 are waiting; otherwise nothing changes (the send blocks) |
| Middleware.AnalyticsQueue.Drain | app/middleware.go:111-120 | the worker takes records oldest first; exactly those whose insert succeeded are appended to the table, in order, and the rest of the channel is kept |
| Middleware.LogRequest | app/middleware.go:141-165 | the handler runs once on a fresh writer; a skipped path sends nothing; otherwise the record (path, captured status, elapsed ms, joined headers) is queued exactly when there is room |
| Middleware.FixedNamesDistinct | app/middleware.go:35-75 | the five instrument names are pairwise distinct |
| Middleware.FixedNamesNotGauges | app/middleware.go:35-75 | none of the five instrument names is a runtime-gauge name |
| Middleware.NotGaugeName | app/middleware.go:35-75 | no fixed instrument name belongs to a set of names starting with "go_" |
| Middleware.StartupHasNoConflict | app/middleware.go:99-109 | at startup no name is registered twice, so `initMetrics` does not panic |
| Middleware.Metrics.constructor | app/middleware.go:35-77 | before `initMetrics`, every instrument is zero or empty and nothing is registered |
| Middleware.Metrics.InitRuntimeMetrics | app/middleware.go:88-97 | every value of `metricsList` gets a gauge whose help text is its key and whose value is 0; other gauges are kept |
| Middleware.Metrics.AddGauges | app/middleware.go:89-96 | for an injective name map, every target name gets a gauge built from its key, in any visiting order |
| Middleware.Metrics.MustRegister | app/middleware.go:101 | registering succeeds if and only if the name is new; a conflict panics and leaves the registry unchanged |
| Middleware.Metrics.InitMetrics | app/middleware.go:99-109 | `initMetrics` succeeds if and only if no name conflicts with what was registered before or with each other; on success the registry holds the old names, the five instruments and every runtime gauge |
| Middleware.Metrics.RegisterInOrder | app/middleware.go:101-105 | the fixed names register if and only if none was registered before |
| Middleware.Metrics.RegisterEach | app/middleware.go:106-108 | the gauge names register, in any order, if and only if none was registered before |
| Middleware.Metrics.SetRuntimeGauges | app/middleware.go:184-186 | each gauge named in the runtime map takes its value; other gauges are untouched |
| Middleware.Metrics.CountRequest | app/middleware.go:176-183 | the total goes up by one, the status label's count goes up by one, the duration is observed under (request function, status) and, for API paths only, in the API summary |
| Middleware.Metrics.ObserveRequest | app/middleware.go:175-187 | the request is counted; the gauges are set if and only if the runtime conversion does not panic |
| Middleware.Metrics.PrometheusMiddleware | app/middleware.go:167-190 | a skipped path changes no instrument; otherwise the request is counted as in CountRequest, the gauges are updated from the runtime conversion, and the active-request gauge returns to its old value on success but stays one higher after a panic |
| Classify.BaseFunction | app/utils.go:206-224 | the status ladder, tried top to bottom, always yields one of the nine base labels |
| Classify.BaseIndex | app/utils.go:206-224 | the label before any API prefix is one of the nine fixed labels |
| Classify.IsApiRequest | app/utils.go:205 | a path is an API request if and only if "api/" occurs in it |
| Classify.GetRequestFunction | app/utils.go:203-229 | the API flag holds if and only if "api/" occurs in the path |
| Classify.FirstBand | app/utils.go:206-211 | 301–308 is redirect, 404 is not_found, 200–208 is request_success |
| Classify.SecondBand | app/utils.go:212-221 | 401, 403 and 405 get their own labels; client error is exactly 400–451 minus those and 404; server error is exactly 500–511 |
| Classify.MiscBand | app/utils.go:222-224 | request_misc is exactly the codes outside the named bands |
| Classify.BaseLabelsDistinct | app/utils.go:204-224 | the nine labels are distinct and none starts with "api_" |
| Classify.LabelShape | app/utils.go:225-228 | the label is "api_" plus the status label if and only if the path is an API path, and is always one of the 18 labels |
| Classify.LabelDependsOnlyOnApiTest | app/utils.go:203-229 | two paths that agree on containing "api/" get the same label and flag |
| Classify.LabelCount | app/utils.go:203-229 | there are exactly 18 distinct labels |
| Classify.InjectiveImage | app/utils.go:226 | prefixing distinct labels with one string keeps them distinct |
| Classify.EveryLabelOccurs | app/utils.go:203-229 | every one of the 18 labels is produced by some path and status |
| RuntimeMetrics.MetricsListEntries | app/utils.go:34-43 | `metricsList` maps each of the eight runtime metric names to its gauge name and holds nothing else |
| RuntimeMetrics.MetricsListInjective | app/utils.go:34-43 | no two runtime metrics share a gauge name |
| RuntimeMetrics.MetricsListNames | app/utils.go:34-43 | the gauge names are exactly the eight listed |
| RuntimeMetrics.GaugePrefix | app/utils.go:34-43 | every gauge name starts with "go_" |
| RuntimeMetrics.GaugeNamesDistinct | app/utils.go:35-42 | the eight gauge names are pairwise distinct |
| RuntimeMetrics.SumStep | app/utils.go:260-263 | the total of a prefix one longer is the previous total plus the next count |
| RuntimeMetrics.SumZero | app/utils.go:260-263 | a run of zero counts totals zero |
| RuntimeMetrics.FirstReaching | app/utils.go:266-271 | the index found is the first at or after the start whose running sum reaches the threshold |
| RuntimeMetrics.MedianIndex | app/utils.go:259-273 | for non-empty counts, the index's running sum reaches half the total and no earlier index does |
| RuntimeMetrics.MedianOf | app/utils.go:259-273 | the boundary at MedianIndex, or the panic "should not happen" for no counts |
| RuntimeMetrics.MedianBucket | app/utils.go:259-273 | the result is the boundary at MedianIndex; it panics if and only if there are no counts |
| RuntimeMetrics.PrefixSumMonotone | app/utils.go:266-271 | running sums never decrease |
| RuntimeMetrics.MedianSplitsMass | app/utils.go:259-273 | the chosen bucket's running sum reaches half the total and the running sum before it does not |
| RuntimeMetrics.MedianAllZero | app/utils.go:264-269 | with all-zero counts, the first boundary is returned |
| RuntimeMetrics.MedianExample | app/utils.go:259-273 | four buckets with one count each give the second boundary, 10 |
| RuntimeMetrics.Step | app/utils.go:243-254 | one sample: its value stored under its gauge name, a histogram's median, a panic on the invalid kind, or nothing for another kind |
| RuntimeMetrics.Convert | app/utils.go:239-256 | only gauge names ever become keys of the result |
| RuntimeMetrics.ConvertPanicPrefix | app/utils.go:250-251 | once a prefix of the samples panics, the whole conversion ends in that panic |
| RuntimeMetrics.ConvertPanics | app/utils.go:248-251 | the conversion panics if and only if some sample is of the invalid kind or is a histogram without counts |
| RuntimeMetrics.ReadRuntimeSamples | app/utils.go:232-238 | sample k is named `order[k]` and holds what the runtime reports for that name |
| RuntimeMetrics.ConvertSamples | app/utils.go:239-256 | the loop's result is the conversion of the samples |
| RuntimeMetrics.GetRuntimeMetrics | app/utils.go:231-257 | the result is the conversion of the samples read in map order; its keys are gauge names |
| Paths.ContainsElement | app/utils.go:276 | true if and only if the element is in the list |
| Paths.SkipMiddleware | app/utils.go:275-277 | a path is skipped if and only if it is exactly "/metrics" |
| Paths.SkipOnlyMetrics | app/utils.go:45 | there is no prefix matching: "/metrics/", "/metric" and "/" are not skipped |
| Paths.UnescapeOk | app/utils.go:112 | `url.QueryUnescape` succeeds: every '%' is followed by two hexadecimal digits |
| Paths.QueryKey | app/utils.go:112 | the key of a query piece is a '='-free prefix of it |
| Paths.QueryValue | app/utils.go:112 | a piece with '=' is its key, '=' and its value; without '=' the value is "" |
| Paths.YieldsKey | app/utils.go:112 | `Query()` keeps a piece if and only if it is non-empty, holds no ';', and both its key and its value unescape |
| Paths.UnescapeKeyValue | app/utils.go:112 | key and value both unescape if and only if the whole piece does |
| Paths.QueryHasKeys | app/utils.go:112 | `len(u.Query()) > 0`: some '&'-separated piece of the raw query is kept |
| Paths.QueryKeysExamples | app/utils.go:112 | an empty query, "&" or "a;b" has no keys; "a=1" has one |
| Paths.BadEscapeDropsQuery | app/utils.go:112-115 | "a=%zz" gives no entry, so "https://h/p?a=%zz" is formatted as "h/p" |
| Paths.ValidateAndFormatURL | app/utils.go:106-116 | it succeeds if and only if parsing succeeded, and returns "Error" otherwise; the result is host, then path, then "?" and the raw query only if the query has a key |
| Paths.ValidateAndFormatPath | app/utils.go:118-126 | it succeeds if and only if parsing succeeded, and returns "Error" otherwise; the result is the path with its leading and trailing '/' runs removed, and neither starts nor ends with '/' |
| Paths.BuildUri | app/utils.go:171-173 | the result is "https://" followed by the URL |
| Paths.PathLength | app/utils.go:160-163 | the length is the parsed PATH_LENGTH, or 9 when it does not parse |
| Paths.PathLengthExamples | app/utils.go:160-163 | "", "abc" give 9; "12" gives 12; "-3" gives -3 |
| Paths.GenerateShortRedirectPath | app/utils.go:158-169 | it panics if and only if the length is negative; otherwise the path has that length and character k is the charset entry of draw k |
| Strings.ContainsFrom | app/utils.go:205 | true if and only if the substring occurs at or after the start index |
| Strings.Contains | app/utils.go:205 | true if and only if the substring occurs somewhere |
| Strings.TrimLeft | app/utils.go:124 | the result is a suffix, what was dropped is all c, and the result does not start with c |
| Strings.TrimRight | app/utils.go:124 | the result is a prefix, what was dropped is all c, and the result does not end with c |
| Strings.TrimIsInfix | app/utils.go:124 | Trim keeps an infix, drops only c on both sides, and the result neither starts nor ends with c |
| Strings.TrimIdempotent | app/utils.go:124 | trimming twice equals trimming once |
| Strings.Before | app/utils.go:112 | the query key is the longest prefix of the part without '=', and the '=' follows it when present |
| Strings.Split | app/utils.go:112 | a split of the raw query at '&' always has at least one piece |
| Strings.Join | app/middleware.go:160 | the configured header values joined with '\|'; Split is its inverse (SplitJoin) |
| Strings.SplitJoin | app/middleware.go:160 | splitting a join of at least one separator-free piece gives back the pieces |
| Strings.Trim | app/utils.go:124 | `strings.Trim` with the cutset "/"; characterised by TrimIsInfix |
| Strconv.Decimal | app/middleware.go:177 | the decimal form is all digits, with no leading zero |
| Strconv.DecimalValue | app/middleware.go:177 | the decimal form reads back as the number |
| Strconv.Itoa | app/middleware.go:177 | the status label is non-empty, starts with '-' exactly for negative codes, and is otherwise digits |
| Strconv.Atoi | app/utils.go:160 | a parsed value lies in the int64 range and comes from a sign or digit prefix |
| Strconv.AtoiItoa | app/middleware.go:177 | Itoa followed by Atoi gives back every int64 |
| Strconv.ItoaInjective | app/middleware.go:177-178 | distinct status codes get distinct status labels |
| Headers.CanonicalChar | app/middleware.go:153 | a valid byte stays valid, and '-' is kept |
| Headers.CanonicalFrom | app/middleware.go:153 | canonicalising keeps the length |
| Headers.CanonicalFromIdempotent | app/middleware.go:153 | canonicalising twice equals canonicalising once |
| Headers.CanonicalMIMEHeaderKey | app/middleware.go:153 | canonicalising keeps the length, and a name with an invalid byte is returned unchanged |
| Headers.Get | app/middleware.go:132 | the first value stored under the canonical name, or "" when there is none |
| Headers.CanonicalIdempotent | app/middleware.go:153 | CanonicalMIMEHeaderKey is idempotent |
| Headers.GetCanonical | app/middleware.go:153 | looking up the canonical form of a name finds the same value as looking up the name |

## Left out

- Rate limiting (`httpRateLimit`, go-chi `httprate`) is not modelled: it is a foreign library keyed by IP and time.
- Concurrency is not modelled: the channel, the worker goroutine, and concurrent handlers. The worker is the sequential `Drain` step, and a send to a full channel is reported rather than suspended.
- Timing is not modelled. The elapsed milliseconds are a parameter, and the constant-time property of `subtle.ConstantTimeCompare` is not modelled (only its result).
- Prometheus internals are reduced to plain state: a counter is a `nat`, a histogram or summary is the sequence of its observations, a gauge is a number, and the registry is a set of names. Bucket boundaries, quantile objectives and descriptor checks are not modelled.
- `promauto.NewHistogramVec` also registers the histogram with the default registry; that registry is not modelled.
- Floating point is modelled as `real`. Durations are whole milliseconds (`int`), and `float64(uint64)` conversion is exact.
- MedianBucket: the loop total is unbounded; `uint64` wrap-around of the count total is not modelled.
- `url.ParseRequestURI` is a parameter: the parsed URL (host, path, raw query) or its failure. Only `Query()`'s "has an entry" rule is modelled: some non-empty `&`-separated part holds no `;`, and both its key (before the first `=`) and its value unescape.
- `metrics.Read` is a parameter: the map from metric name to sample value. The map-iteration order of `metricsList` is a parameter `order` enumerating its keys.
- `os.Getenv("PATH_LENGTH")` and `rand.Intn` are parameters: the environment string and a sequence of draws below 62.
- Log output is not modelled (`log.Printf`, `log.Println`, the `fmt.Printf` for an unexpected kind).
- The rest of the repository is not part of this model: the SQL handlers, the database schema, router wiring and the CLI. The wiring that places `verifyApiKey`, `logRequest` and `prometheusMiddleware` on routes is not modelled either.
- `skipLogging` is not part of the shown source; it is modelled as `skipMiddleware`.
- The response writer's `http.Error` headers (`Content-Type`, `X-Content-Type-Options`) are not modelled; only the status and body it writes are.
- Strings are sequences of bytes as `char`; Unicode is not modelled.
- Paths.GenerateShortRedirectPath: the draws sequence must cover the requested length; the charset's alphanumeric property is stated only as membership in `Charset`.
- Paths.GenerateShortRedirectPath: the panic "makeslice: len out of range" for a length beyond the runtime's maximum allocation (about 2^48 bytes on 64-bit platforms) is not modelled; the model panics only on a negative length, because memory limits are outside the model.
- Middleware.Metrics.PrometheusMiddleware: requires the runtime gauges to exist (`Valid`), as `initMetrics` leaves them; the nil-gauge panic when it has not run is not modelled.
- Middleware.LogRequest: a handler that panics inside `next.ServeHTTP` is not modelled; the handler is a finite list of writer calls that always returns, so the promise that every non-skipped request queues or blocks on a record does not cover a panicking handler (which sends no record).
- Middleware.Metrics.PrometheusMiddleware: a handler that panics inside `next.ServeHTTP` is not modelled; such a panic skips the counting and the decrement, so the active-request gauge would also stay one higher then, not only after a panic in `getRuntimeMetrics`.
