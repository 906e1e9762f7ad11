# mpv D3D11 presentation context — a Dafny model

This project models the integer timing and state logic of mpv's D3D11
presentation context (`video/out/d3d11/context.c`): the conversion of
performance-counter (QPC) ticks to microseconds, the vsync estimator that
fuses DXGI's present counter and refresh counter into a vsync period and a
predicted display time for the last submitted frame, the backbuffer and
swapchain lifecycle (init, resize, frame start, control, uninit), and the
validator for the `d3d11-adapter` option.

The D3D11, DXGI, Win32 and collaborator calls the context makes on its
device, swapchain, window and `ra` are turned into inputs: their results are
parameters, and the calls themselves are appended, in order, to a log
(`Context.calls`, one `Call` per call; `GetBuffer` stands for
`IDXGISwapChain_GetBuffer` followed by `ra_d3d11_wrap_tex`). The clocks
(`QueryPerformanceCounter`, `QueryPerformanceFrequency`, `mp_time_us`) are
parameters and not log entries; the few other calls that are not logged are
listed under "## Left out".

Modules:

- `CTypes` (c_types.dfy): the C integer semantics the code relies on:
  `unsigned` wrap-around modulo 2^32, the two's complement reinterpretation
  of an `unsigned` as `int`, the `int64_t` range, and C's truncating signed
  `/` and `%` (Dafny's are Euclidean).
- `QpcClock` (qpc_clock.dfy): `qpc_to_us`, proved exact
  (`qpc * 1000000 / perf_freq` with C rounding) for every tick count, and
  free of int64 overflow within the 100-year horizon the source's comment
  names.
- `VsyncEstimator` (vsync_estimator.dfy): `d3d11_get_vsync` as the pure
  function `VsyncStep` over the estimator's `priv` fields, and lemmas about
  one call and about sequences of calls.
- `AdapterOption` (adapter_option.dfy): `d3d11_validate_adapter`, with the
  adapter enumerator as an abstract predicate `matches`.
- `D3D11Context` (d3d11_context.dfy): class `Context` holding the `priv`
  fields and the host's `ra` pointer, with one method per entry point. The
  imperative `GetVsync` is proved to move the state and fill `vo_vsync_info`
  exactly as `VsyncStep` says.
- `Wrappers` (wrappers.dfy): an `Option` type.

Behaviour of context.c worth noting:

- A `DXGI_ERROR_FRAME_STATISTICS_DISJOINT` result clears the stored refresh
  count and timestamp and then returns, because it is a failed HRESULT
  (context.c:254-259). The sample of that call is not used.
- `d3d11_uninit` also uninitialises the window between the swapchain and the
  device, destroys the `ra` last, and frees the backbuffer only when an `ra`
  exists (context.c:322-336).
- `resize` always frees the backbuffer before resizing, so resizing with a
  backbuffer still held cannot happen. A resize whose `ResizeBuffers`
  succeeds returns true even when the new backbuffer cannot be fetched
  (context.c:146-163).
- The period estimate is taken when both deltas are non-zero. The deltas
  are 32-bit unsigned values, so "non-zero", not "positive", is the test
  (context.c:267-280).

Constants taken from headers that are not part of this model:
`VO_EVENT_RESIZE = 1 << 1` and `VO_ERROR = -1` (vo.h), `M_OPT_INVALID = -3`
and `M_OPT_EXIT = -6` (m_option.h). `SAFE_RELEASE` and `ra_tex_free` are
taken to do nothing on a NULL pointer and to clear the pointer.

## Model

| member | source | states |
|---|---|---|
| `CTypes.ToUint32` | video/out/d3d11/context.c:267-275 | conversion to `unsigned` yields the unique value in [0, 2^32) congruent to the input; 32-bit values are unchanged |
| `CTypes.ToInt32` | video/out/d3d11/context.c:299 | reinterpretation of an `unsigned` as `int` lands in the int32 range, keeps the 32-bit pattern, and keeps values below 2^31 |
| `CTypes.TruncDiv` | video/out/d3d11/context.c:209-210 | C's signed `/`: the remainder left over has the sign of the dividend and is smaller than the divisor, and the quotient has the sign of the dividend |
| `CTypes.TruncRem` | video/out/d3d11/context.c:209-210 | C's signed `%`: `(a / b) * b + a % b == a`, with the sign of `a` and magnitude below `b` |
| `QpcClock.QpcToUs` | video/out/d3d11/context.c:202-211 | `qpc_to_us`: the whole-seconds term plus the remainder term; the result has the sign of the tick count (its exactness is `QpcToUsExact`) |
| `QpcClock.QpcToUsExact` | video/out/d3d11/context.c:202-211 | the split conversion equals `qpc * 1000000 / perf_freq` with C rounding for every tick count, and equals the floor for `qpc >= 0` |
| `QpcClock.QpcToUsExactNonNegative` | video/out/d3d11/context.c:206-210 | for `qpc >= 0` the whole-seconds and remainder terms add up to floor(qpc * 1000000 / perf_freq) |
| `QpcClock.RemainderTermInRange` | video/out/d3d11/context.c:206-210 | for every int64 tick count and perf_freq below 2.9 * 10^9, `qpc % perf_freq * 1000000` and its quotient stay within int64 |
| `QpcClock.NoOverflow` | video/out/d3d11/context.c:206-210 | within 100 years of counting (and perf_freq below 2.9 * 10^9) the counter is an int64 and no intermediate of the conversion (whole-seconds quotient and product, remainder product and its quotient), nor its result, leaves int64 |
| `QpcClock.RemainderQuotientBound` | video/out/d3d11/context.c:209-210 | the remainder term `qpc % perf_freq * 1000000 / perf_freq` is within one second's worth of microseconds |
| `QpcClock.WholeSecondsBound` | video/out/d3d11/context.c:209 | the whole-seconds term is at most the 100-year horizon in seconds |
| `QpcClock.QpcToUsMonotone` | video/out/d3d11/context.c:202-211 | later tick counts never convert to earlier microsecond values |
| `QpcClock.QpcToUsWholeSeconds` | video/out/d3d11/context.c:209-210 | `k * perf_freq` ticks convert to exactly `k * 10^6` us |
| `VsyncEstimator.RefreshesPassed` | video/out/d3d11/context.c:264-270 | `src_passed` is a 32-bit unsigned value congruent to the difference of two non-zero counts modulo 2^32: the difference itself when the count moved forward, the difference plus 2^32 after a wrap; 0 when either count is 0 or the count did not move |
| `VsyncEstimator.TicksPassed` | video/out/d3d11/context.c:272-276 | `sqt_passed` is the tick difference truncated to 32 bits (congruent modulo 2^32, exact when it fits), 0 when either timestamp is 0 |
| `VsyncEstimator.NextPeriod` | video/out/d3d11/context.c:278-280 | with both deltas non-zero the estimate is their unsigned quotient (below 2^32), otherwise the previous estimate |
| `VsyncEstimator.ExpectedSyncPresentCount` | video/out/d3d11/context.c:290-295 | `expected_sync_pc` is `PresentCount + SyncRefreshCount - PresentRefreshCount` modulo 2^32 |
| `VsyncEstimator.QueuedFrames` | video/out/d3d11/context.c:297-299 | `queued_frames` is an int32 that, added to the expected present count modulo 2^32, gives the submit count |
| `VsyncEstimator.PredictedDisplayQpc` | video/out/d3d11/context.c:297-301 | `last_queue_display_time_qpc`: the frame at SyncRefreshCount is predicted at SyncQPCTime; with a known period, frames queued after it are predicted later and frames before it earlier |
| `VsyncEstimator.PublishedDisplayTime` | video/out/d3d11/context.c:303-308 | a display time is published exactly when the prediction is not before the last submission, and it is then never before the last submission on the mp_time_us clock |
| `VsyncEstimator.SampleStep` | video/out/d3d11/context.c:261-309 | a used sample is stored, `skipped_vsyncs` is written as 0, the last submit time is untouched, and `vsync_duration` is written exactly when the new estimate is non-zero |
| `VsyncEstimator.VsyncStep` | video/out/d3d11/context.c:231-310 | a call never touches the last submit time, and keeps every field within the range of its C type |
| `VsyncEstimator.IntervalGate` | video/out/d3d11/context.c:236-238 | with a sync interval other than 1 nothing changes and no output field is written |
| `VsyncEstimator.QueryFailures` | video/out/d3d11/context.c:240-259 | a failed present-count query changes nothing; DISJOINT only zeroes the stored refresh count and timestamp and writes nothing; any other failure changes nothing |
| `VsyncEstimator.SampleUsedExactlyWhenQueriesSucceed` | video/out/d3d11/context.c:236-262 | `skipped_vsyncs` is written, always as 0, exactly when interval is 1 and both queries succeed, and nothing is written otherwise |
| `VsyncEstimator.SampleAlwaysStored` | video/out/d3d11/context.c:264-276 | a used sample's refresh count and timestamp are always stored; each delta is 0 when the new or the stored value is 0 |
| `VsyncEstimator.PeriodEstimate` | video/out/d3d11/context.c:278-282 | the estimate becomes `sqt_passed / src_passed` only when both are non-zero and persists otherwise; `vsync_duration` is written, as the estimate in us, exactly when the estimate is non-zero |
| `VsyncEstimator.DisplayTimePrediction` | video/out/d3d11/context.c:284-309 | `last_queue_display_time` is written exactly when the period is known, all four statistics are non-zero and the prediction is not before the last submission, and then is the prediction moved to the mp_time_us clock |
| `VsyncEstimator.NeverBeforeLastSubmit` | video/out/d3d11/context.c:303-308 | a published display time is never earlier than the last submission on the same clock |
| `VsyncEstimator.PredictionProductInRange` | video/out/d3d11/context.c:299-301 | `queued_frames * vsync_duration_qpc` never overflows int64 |
| `VsyncEstimator.IdealDisplayPeriod` | video/out/d3d11/context.c:264-280 | against a display whose timestamps advance by a fixed period per refresh, the estimate is exactly that period, across a 32-bit refresh-counter wrap too, while the elapsed ticks fit in 32 bits |
| `VsyncEstimator.QueuedFramesCounted` | video/out/d3d11/context.c:290-301 | `queued_frames` recovers the signed number of frames submitted after the one at SyncRefreshCount whenever it fits in an `int`, and the prediction is that many periods after SyncQPCTime |
| `VsyncEstimator.FlipModelPrediction` | video/out/d3d11/context.c:290-301 | when both statistics pairs refer to the same refresh, the expected present count is PresentCount, that frame is predicted at SyncQPCTime, and a frame `k` presents later is predicted `k` periods after it |
| `VsyncEstimator.DisjointThenSample` | video/out/d3d11/context.c:254-280 | after a DISJOINT report the next good sample is stored but gives no new period estimate |
| `VsyncEstimator.StaleSampleKeepsEstimate` | video/out/d3d11/context.c:264-280 | a sample whose refresh count or timestamp equals the stored one leaves the period estimate unchanged |
| `VsyncEstimator.TwoSampleScenario` | video/out/d3d11/context.c:264-282 | at 10 MHz, samples 2 refreshes and 20000 ticks apart give a 10000-tick period reported as 1000 us |
| `VsyncEstimator.Apply` | video/out/d3d11/context.c:220-310 | a swap_buffers call sets the last submit time and leaves the estimate alone; a get_vsync call leaves the last submit time alone, and with a sync interval other than 1 changes nothing |
| `VsyncEstimator.Run` | video/out/d3d11/context.c:220-310 | with a sync interval other than 1, no run of calls ever moves the stored sample or the estimate |
| `VsyncEstimator.RunKeepsValid` | video/out/d3d11/context.c:220-310 | every interleaving of swap_buffers and get_vsync calls keeps each estimator field within the range of its C type |
| `VsyncEstimator.IdealRunSettles` | video/out/d3d11/context.c:264-282 | against an ideal display the estimate becomes the true period at the first get_vsync call and stays there for the rest of the run, swap_buffers calls in between included |
| `AdapterOption.StatusCode` | video/out/d3d11/context.c:116-123 | only acceptance maps to status 0; help-exit maps exactly to `M_OPT_EXIT` and invalid exactly to `M_OPT_INVALID`, both negative |
| `AdapterOption.ValidateAdapter` | video/out/d3d11/context.c:96-124 | the outcome is help-exit exactly for "help", acceptance exactly for the empty value or a matching adapter, and invalid only for an unmatched non-empty value |
| `AdapterOption.ValidateAdapterStatus` | video/out/d3d11/context.c:96-124 | status 0 exactly for the empty value or a matching adapter, `M_OPT_EXIT` exactly for "help", `M_OPT_INVALID` exactly for any other unmatched value |
| `AdapterOption.ValidationOutcomes` | video/out/d3d11/context.c:100-123 | "" is accepted, "help" exits whatever the adapters, any other value is accepted exactly when matched and invalid otherwise |
| `D3D11Context.GetBackbuffer` | video/out/d3d11/context.c:126-144 | a backbuffer is obtained exactly when GetBuffer succeeds and the wrapper is created, and it is that wrapper |
| `D3D11Context.HasResizeEvent` | video/out/d3d11/context.c:315 | the resize bit of the event mask is set exactly when the mask modulo 4 is at least 2 |
| `D3D11Context.ResizeCalls` | video/out/d3d11/context.c:146-163 | resize's calls are exactly: the free of the held backbuffer (only when one is held), then the resize, then the backbuffer fetch as the last call exactly when the resize succeeded |
| `D3D11Context.VsyncQueries` | video/out/d3d11/context.c:236-253 | get_vsync makes no other calls than its two queries, in order, as a prefix: the present count exactly with sync interval 1, and the frame statistics exactly when that query succeeded |
| `D3D11Context.UninitCalls` | video/out/d3d11/context.c:322-336 | teardown always uninitialises the window, makes only release calls, and at most five (their order is `UninitReleaseOrder`) |
| `D3D11Context.InitAttempts` | video/out/d3d11/context.c:368-396 | init's calls are a non-empty prefix of its six steps that stops right after the first failing step, every earlier step having succeeded |
| `D3D11Context.UninitReleaseOrder` | video/out/d3d11/context.c:322-336 | teardown is backbuffer, swapchain, window, device, ra in strictly that order; each is released exactly when held; the ra goes last |
| `D3D11Context.Context.Zeroed` | video/out/d3d11/context.c:348 | a fresh context holds nothing and its estimator state is all zeros |
| `D3D11Context.Context.Init` | video/out/d3d11/context.c:346-403 | init succeeds exactly when every step does; on success device, ra, swapchain and backbuffer are held; on failure the attempted calls are followed by the teardown of what was created and nothing is held |
| `D3D11Context.Context.CreateResources` | video/out/d3d11/context.c:368-398 | the steps before the error label run in order, each only after the previous ones succeeded; the device, ra and swapchain are held exactly when created, the backbuffer only when every step succeeded |
| `D3D11Context.Context.Resize` | video/out/d3d11/context.c:146-163 | exactly the calls of `ResizeCalls` are made (the old backbuffer freed first); a failed resize returns false with no backbuffer; a successful one returns true and holds the fetched backbuffer, if any |
| `D3D11Context.Context.Reconfig` | video/out/d3d11/context.c:165-169 | the window is configured, then exactly the calls of `ResizeCalls` follow, with the outcome and backbuffer of resize |
| `D3D11Context.Context.ColorDepth` | video/out/d3d11/context.c:171-179 | 0 without a backbuffer, else the depth of its format's first component |
| `D3D11Context.Context.StartFrame` | video/out/d3d11/context.c:181-193 | a frame starts exactly when a backbuffer is held; the framebuffer is then that backbuffer, not flipped; nothing is written otherwise |
| `D3D11Context.Context.SubmitFrame` | video/out/d3d11/context.c:195-200 | flushes the ra and always succeeds |
| `D3D11Context.Context.SwapBuffers` | video/out/d3d11/context.c:220-229 | records the submit tick count, then presents with the configured sync interval |
| `D3D11Context.Context.GetVsync` | video/out/d3d11/context.c:231-310 | exactly the queries of `VsyncQueries` are made, the estimator fields move exactly as `VsyncStep` says and `vo_vsync_info` receives exactly its writes, every other field untouched |
| `D3D11Context.Context.UseSample` | video/out/d3d11/context.c:261-309 | the estimator fields move, and `vo_vsync_info` is written, exactly as `SampleStep` says |
| `D3D11Context.Context.PredictDisplayTime` | video/out/d3d11/context.c:284-309 | only `last_queue_display_time` is written, exactly as `PublishedDisplayTime` says |
| `D3D11Context.Context.Control` | video/out/d3d11/context.c:312-320 | the window's control handler is called first, then on a resize event exactly the calls of `ResizeCalls`; a failed resize gives `VO_ERROR`, otherwise the handler's status; without a resize event the backbuffer is unchanged |
| `D3D11Context.Context.Uninit` | video/out/d3d11/context.c:322-336 | exactly the teardown calls of `UninitCalls` are made, and nothing is held afterwards |
| `D3D11Context.ResizeFailureStopsFrames` | video/out/d3d11/context.c:146-193 | after a control call whose resize fails: `VO_ERROR`, no frame can start, colour depth 0 |
| `D3D11Context.ResizeReacquiresBackbuffer` | video/out/d3d11/context.c:146-193 | a successful resize frees the old backbuffer before resizing and the next frame starts on the new one |

## Left out

- The option tables (`OPT_CHOICE`, `OPT_FLAG`, `OPT_INTRANGE`, context.c:43-80): declarative configuration over the option library, which is not part of this model; only the sync interval (0-4) and the swapchain depth are inputs.
- D3D11/DXGI/COM calls (`GetBuffer`, `ResizeBuffers`, `Present`, `GetLastPresentCount`, `GetFrameStatistics`, `SAFE_RELEASE`, device and swapchain creation): foreign API calls, not executed; their results are parameters and the calls are log entries.
- Calls that are not logged: the `SAFE_RELEASE` of the local texture reference in `get_backbuffer` and the `vo_w32_hwnd` lookup in `d3d11_init` (neither changes what the context holds), `mp_get_config_group` and `talloc_zero` (allocation and option lookup), and the clock readings.
- `QueryPerformanceCounter`, `QueryPerformanceFrequency`, `mp_time_us` and `qpc_us_now`: platform clocks; their readings are parameters.
- `QpcClock.QpcToUs`, `D3D11Context.Context.GetVsync`: the model takes `QueryPerformanceFrequency` to report a positive frequency (Windows guarantees this on every system since XP), so the conversion requires `perf_freq > 0`; `GetVsync` requires it on every path, including the early return for a sync interval other than 1, which never divides.
- `vo_w32_*`, `spirv_compiler_init`, `ra_d3d11_create`, `ra_d3d11_flush`, `ra_d3d11_wrap_tex` and the enumeration inside `mp_d3d11_list_or_verify_adapters`: external collaborators; results are parameters, the enumerator is the predicate `matches`.
- Logging (`MP_ERR`, `MP_FATAL`, `mp_info`) and freeing of the adapter listing (`talloc_free`).
- The blocking of `Present` until vsync: timing and concurrency with the compositor.
- `D3D11Context.Context.Uninit`: the source leaves the host's `ra` pointer set after destroying the `ra`; the model records the `ra` as gone.
- `VsyncEstimator.PublishedDisplayTime`: the sum `SyncQPCTime + queued_frames * vsync_duration_qpc` and the final shift to the mp_time_us clock are computed on unbounded integers; C's signed int64 overflow there (undefined behaviour, far outside real counter values) is not modelled. The product itself is proved in range.
- The model does not track that the swapchain entry points are only called while a swapchain exists; `Resize`, `Reconfig` and `Control` require a live `ra`, since the source fetches the new backbuffer through it.
