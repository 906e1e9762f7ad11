/** The vsync estimator of the D3D11 presentation context (d3d11_get_vsync),
    as a function of its rolling state, the two frame-statistics queries and
    the two clock readings. It fuses the present counter (the ID returned by
    GetLastPresentCount and the PresentCount/PresentRefreshCount pair) with
    the refresh counter (SyncRefreshCount/SyncQPCTime) into an estimate of the
    vsync period in ticks and a predicted display time of the last submitted
    frame. The imperative version in module D3D11Context is proved to compute
    exactly this. */
module VsyncEstimator {
  import opened Wrappers
  import opened CTypes
  import opened QpcClock

  /** The estimator's fields of `struct priv`. */
  datatype State = State(
    lastSyncRefreshCount: int,  // unsigned
    lastSyncQpcTime: int,       // int64_t
    vsyncDurationQpc: int,      // int64_t: the period estimate, in ticks
    lastSubmitQpc: int)         // int64_t: tick count read just before the last Present

  /** The ranges the C types give the fields. The period estimate is a quotient
      of two `unsigned` values (or the initial 0), so it stays below 2^32. */
  predicate Valid(st: State) {
    IsUint32(st.lastSyncRefreshCount) && IsInt64(st.lastSyncQpcTime)
    && 0 <= st.vsyncDurationQpc < TWO_32 && IsInt64(st.lastSubmitQpc)
  }

  /** The state as the zero-filled allocation of `struct priv` leaves it. */
  const Initial: State := State(0, 0, 0, 0)

  /** The four fields of DXGI_FRAME_STATISTICS that the estimator reads. */
  datatype FrameStatistics = FrameStatistics(
    presentCount: int,         // UINT
    presentRefreshCount: int,  // UINT
    syncRefreshCount: int,     // UINT
    syncQpcTime: int)          // LARGE_INTEGER

  predicate WellTyped(s: FrameStatistics) {
    IsUint32(s.presentCount) && IsUint32(s.presentRefreshCount)
    && IsUint32(s.syncRefreshCount) && IsInt64(s.syncQpcTime)
  }

  /** All four statistics are populated: the presentation engine sometimes
      reports success with zeros in some or all of them. */
  predicate AllNonZero(s: FrameStatistics) {
    s.presentCount != 0 && s.presentRefreshCount != 0
    && s.syncRefreshCount != 0 && s.syncQpcTime != 0
  }

  /** What GetFrameStatistics returned: a sample with S_OK, the
      DXGI_ERROR_FRAME_STATISTICS_DISJOINT error, or some other failure. */
  datatype StatsQuery = StatsOk(stats: FrameStatistics) | StatsDisjoint | StatsFailed

  predicate QueryWellTyped(query: StatsQuery) {
    query.StatsOk? ==> WellTyped(query.stats)
  }

  /** The fields of `struct vo_vsync_info` one call writes; None: left as it was. */
  datatype Writes = Writes(
    skippedVsyncs: Option<int>,
    vsyncDuration: Option<int>,         // microseconds
    lastQueueDisplayTime: Option<int>)  // microseconds, on the mp_time_us clock

  const NoWrites: Writes := Writes(None, None, None)

  datatype Outcome = Outcome(state: State, writes: Writes)

  /** src_passed: the refreshes between the stored sample and this one, in
      32-bit unsigned arithmetic, or 0 when either count is 0 (not populated). */
  function RefreshesPassed(last: int, now: int): (n: int)
    ensures IsUint32(n)
    ensures now == 0 || last == 0 ==> n == 0
    ensures IsUint32(now) && IsUint32(last) && last != 0 ==> (n == 0 <==> now == 0 || now == last)
    ensures now != 0 && last != 0 ==> (n - (now - last)) % TWO_32 == 0
    ensures 0 < last <= now < TWO_32 ==> n == now - last
    ensures 0 < now < last < TWO_32 ==> n == now - last + TWO_32
  {
    if now != 0 && last != 0 then ToUint32(now - last) else 0
  }

  /** sqt_passed: the ticks between the stored sample and this one. The int64
      difference is assigned to an `unsigned`, so it is truncated to 32 bits;
      0 when either timestamp is 0. */
  function TicksPassed(last: int, now: int): (n: int)
    ensures IsUint32(n)
    ensures now == 0 || last == 0 ==> n == 0
    ensures now != 0 && last != 0 ==> (n - (now - last)) % TWO_32 == 0
    ensures now != 0 && last != 0 && 0 <= now - last < TWO_32 ==> n == now - last
  {
    if now != 0 && last != 0 then ToUint32(now - last) else 0
  }

  /** The next period estimate: the unsigned quotient ticks/refreshes when both
      are non-zero, otherwise the previous estimate. */
  function NextPeriod(previous: int, src: int, sqt: int): (p: int)
    requires IsUint32(src) && IsUint32(sqt)
    ensures src != 0 && sqt != 0 ==> 0 <= p < TWO_32 && p * src <= sqt < (p + 1) * src
    ensures src == 0 || sqt == 0 ==> p == previous
  {
    if src != 0 && sqt != 0 then sqt / src else previous
  }

  /** expected_sync_pc: the present ID that belongs to SyncRefreshCount,
      assuming one present per refresh. */
  function ExpectedSyncPresentCount(s: FrameStatistics): (pc: int)
    ensures IsUint32(pc)
    ensures (pc - (s.presentCount + s.syncRefreshCount - s.presentRefreshCount)) % TWO_32 == 0
  {
    ToUint32(s.presentCount + ToUint32(s.syncRefreshCount - s.presentRefreshCount))
  }

  /** queued_frames: the unsigned distance from `expected` to `submitCount`,
      reinterpreted as a signed 32-bit `int`. */
  function QueuedFrames(submitCount: int, expected: int): (n: int)
    requires IsUint32(submitCount) && IsUint32(expected)
    ensures IsInt32(n)
    ensures ToUint32(expected + n) == submitCount
  {
    ToInt32(ToUint32(submitCount - expected))
  }

  /** last_queue_display_time_qpc: the refresh timestamp moved forward by one
      period per queued frame. */
  function PredictedDisplayQpc(s: FrameStatistics, submitCount: int, period: int): (t: int)
    requires IsUint32(submitCount)
    ensures submitCount == ExpectedSyncPresentCount(s) ==> t == s.syncQpcTime
    ensures period >= 0 && QueuedFrames(submitCount, ExpectedSyncPresentCount(s)) >= 0 ==> t >= s.syncQpcTime
    ensures period >= 0 && QueuedFrames(submitCount, ExpectedSyncPresentCount(s)) < 0 ==> t <= s.syncQpcTime
  {
    s.syncQpcTime + QueuedFrames(submitCount, ExpectedSyncPresentCount(s)) * period
  }

  /** The display time published for the last submitted frame, if any: only
      when the prediction is not before the last submission, and then shifted
      from the tick clock (read as `qpcNow`) to the mp_time_us clock (read as
      `timeNowUs`). */
  function PublishedDisplayTime(lastSubmitQpc: int, s: FrameStatistics, submitCount: int,
                                period: int, perfFreq: int, qpcNow: int, timeNowUs: int): (r: Option<int>)
    requires IsUint32(submitCount) && perfFreq > 0
    ensures r.Some? <==> PredictedDisplayQpc(s, submitCount, period) >= lastSubmitQpc
    ensures r.Some? ==> r.value >= timeNowUs + (QpcToUs(lastSubmitQpc, perfFreq) - QpcToUs(qpcNow, perfFreq))
  {
    var predicted := PredictedDisplayQpc(s, submitCount, period);
    if predicted >= lastSubmitQpc then
      QpcToUsMonotone(lastSubmitQpc, predicted, perfFreq);
      Some(timeNowUs + (QpcToUs(predicted, perfFreq) - QpcToUs(qpcNow, perfFreq)))
    else
      None
  }

  /** The update made from one successfully read sample. */
  function SampleStep(st: State, submitCount: int, s: FrameStatistics,
                      perfFreq: int, qpcNow: int, timeNowUs: int): (o: Outcome)
    requires IsUint32(submitCount) && perfFreq > 0
    ensures o.state.lastSyncRefreshCount == s.syncRefreshCount && o.state.lastSyncQpcTime == s.syncQpcTime
    ensures o.state.lastSubmitQpc == st.lastSubmitQpc
    ensures o.writes.skippedVsyncs == Some(0)
    ensures o.writes.vsyncDuration.Some? <==> o.state.vsyncDurationQpc != 0
  {
    var src := RefreshesPassed(st.lastSyncRefreshCount, s.syncRefreshCount);
    var sqt := TicksPassed(st.lastSyncQpcTime, s.syncQpcTime);
    var period := NextPeriod(st.vsyncDurationQpc, src, sqt);
    var duration := if period != 0 then Some(QpcToUs(period, perfFreq)) else None;
    var display :=
      if period != 0 && AllNonZero(s) then
        PublishedDisplayTime(st.lastSubmitQpc, s, submitCount, period, perfFreq, qpcNow, timeNowUs)
      else None;
    Outcome(State(s.syncRefreshCount, s.syncQpcTime, period, st.lastSubmitQpc),
            Writes(Some(0), duration, display))
  }

  /** d3d11_get_vsync. `submitCount` is what GetLastPresentCount returned
      (None: it failed), `query` what GetFrameStatistics returned. */
  function VsyncStep(st: State, syncInterval: int, submitCount: Option<int>, query: StatsQuery,
                     perfFreq: int, qpcNow: int, timeNowUs: int): (o: Outcome)
    requires submitCount.Some? ==> IsUint32(submitCount.value)
    requires perfFreq > 0
    ensures o.state.lastSubmitQpc == st.lastSubmitQpc
    ensures Valid(st) && QueryWellTyped(query) ==> Valid(o.state)
  {
    if syncInterval != 1 || submitCount.None? then
      Outcome(st, NoWrites)
    else
      match query
      case StatsDisjoint => Outcome(st.(lastSyncRefreshCount := 0, lastSyncQpcTime := 0), NoWrites)
      case StatsFailed => Outcome(st, NoWrites)
      case StatsOk(s) => SampleStep(st, submitCount.value, s, perfFreq, qpcNow, timeNowUs)
  }

  // ---------------------------------------------------------------------------
  // Properties of one call

  /** The calculation assumes one present per vsync: with any other sync
      interval nothing changes and no output field is written. */
  lemma IntervalGate(st: State, syncInterval: int, submitCount: Option<int>, query: StatsQuery,
                     perfFreq: int, qpcNow: int, timeNowUs: int)
    requires submitCount.Some? ==> IsUint32(submitCount.value)
    requires perfFreq > 0
    requires syncInterval != 1
    ensures VsyncStep(st, syncInterval, submitCount, query, perfFreq, qpcNow, timeNowUs)
            == Outcome(st, NoWrites)
  {
  }

  /** A failed GetLastPresentCount changes nothing; the DISJOINT error only
      clears the stored refresh count and timestamp (it is a failure code, so
      the sample is not used); any other failure changes nothing. */
  lemma QueryFailures(st: State, submitCount: Option<int>, query: StatsQuery,
                      perfFreq: int, qpcNow: int, timeNowUs: int)
    requires submitCount.Some? ==> IsUint32(submitCount.value)
    requires perfFreq > 0
    ensures submitCount.None? ==>
              VsyncStep(st, 1, submitCount, query, perfFreq, qpcNow, timeNowUs) == Outcome(st, NoWrites)
    ensures submitCount.Some? && query.StatsDisjoint? ==>
              VsyncStep(st, 1, submitCount, query, perfFreq, qpcNow, timeNowUs)
              == Outcome(State(0, 0, st.vsyncDurationQpc, st.lastSubmitQpc), NoWrites)
    ensures submitCount.Some? && query.StatsFailed? ==>
              VsyncStep(st, 1, submitCount, query, perfFreq, qpcNow, timeNowUs) == Outcome(st, NoWrites)
  {
  }

  /** A call writes skipped_vsyncs, always as 0 (detection is not implemented),
      exactly when it uses a sample: sync interval 1 and both queries succeed.
      Nothing else is ever written without it. */
  lemma SampleUsedExactlyWhenQueriesSucceed(st: State, syncInterval: int, submitCount: Option<int>,
                                            query: StatsQuery, perfFreq: int, qpcNow: int, timeNowUs: int)
    requires submitCount.Some? ==> IsUint32(submitCount.value)
    requires perfFreq > 0
    ensures var w := VsyncStep(st, syncInterval, submitCount, query, perfFreq, qpcNow, timeNowUs).writes;
            (w.skippedVsyncs.Some? <==> syncInterval == 1 && submitCount.Some? && query.StatsOk?)
            && (w.skippedVsyncs.Some? ==> w.skippedVsyncs == Some(0))
            && (w.skippedVsyncs.None? ==> w == NoWrites)
  {
  }

  /** A used sample is always stored, and each delta computed from it is 0
      whenever the new value or the stored one is 0. */
  lemma SampleAlwaysStored(st: State, submitCount: int, s: FrameStatistics,
                           perfFreq: int, qpcNow: int, timeNowUs: int)
    requires IsUint32(submitCount) && perfFreq > 0
    ensures var o := VsyncStep(st, 1, Some(submitCount), StatsOk(s), perfFreq, qpcNow, timeNowUs);
            o.state.lastSyncRefreshCount == s.syncRefreshCount
            && o.state.lastSyncQpcTime == s.syncQpcTime
            && o.state.lastSubmitQpc == st.lastSubmitQpc
    ensures s.syncRefreshCount == 0 || st.lastSyncRefreshCount == 0 ==>
              RefreshesPassed(st.lastSyncRefreshCount, s.syncRefreshCount) == 0
    ensures s.syncQpcTime == 0 || st.lastSyncQpcTime == 0 ==>
              TicksPassed(st.lastSyncQpcTime, s.syncQpcTime) == 0
  {
  }

  /** The period estimate changes only when both deltas are non-zero, and then
      becomes ticks/refreshes; vsync_duration is written, as the estimate
      converted to microseconds, exactly when the estimate is non-zero. */
  lemma PeriodEstimate(st: State, submitCount: int, s: FrameStatistics,
                       perfFreq: int, qpcNow: int, timeNowUs: int)
    requires IsUint32(submitCount) && perfFreq > 0
    ensures var o := VsyncStep(st, 1, Some(submitCount), StatsOk(s), perfFreq, qpcNow, timeNowUs);
            var src := RefreshesPassed(st.lastSyncRefreshCount, s.syncRefreshCount);
            var sqt := TicksPassed(st.lastSyncQpcTime, s.syncQpcTime);
            o.state.vsyncDurationQpc == (if src != 0 && sqt != 0 then sqt / src else st.vsyncDurationQpc)
            && (o.writes.vsyncDuration.Some? <==> o.state.vsyncDurationQpc != 0)
            && (o.writes.vsyncDuration.Some? ==>
                  o.writes.vsyncDuration.value == QpcToUs(o.state.vsyncDurationQpc, perfFreq))
  {
  }

  /** last_queue_display_time is written exactly when the period is known, all
      four statistics are non-zero and the prediction is not before the last
      submission; it is then the prediction moved to the mp_time_us clock. */
  lemma DisplayTimePrediction(st: State, submitCount: int, s: FrameStatistics,
                              perfFreq: int, qpcNow: int, timeNowUs: int)
    requires IsUint32(submitCount) && perfFreq > 0
    ensures var o := VsyncStep(st, 1, Some(submitCount), StatsOk(s), perfFreq, qpcNow, timeNowUs);
            var period := o.state.vsyncDurationQpc;
            var predicted := PredictedDisplayQpc(s, submitCount, period);
            (o.writes.lastQueueDisplayTime.Some? <==>
               period != 0 && AllNonZero(s) && predicted >= st.lastSubmitQpc)
            && (o.writes.lastQueueDisplayTime.Some? ==>
                  o.writes.lastQueueDisplayTime.value
                  == timeNowUs + (QpcToUs(predicted, perfFreq) - QpcToUs(qpcNow, perfFreq)))
  {
  }

  /** A published display time is never earlier than the last submission,
      both read on the mp_time_us clock. */
  lemma {:induction false} NeverBeforeLastSubmit(st: State, syncInterval: int, submitCount: Option<int>,
                                                 query: StatsQuery, perfFreq: int, qpcNow: int, timeNowUs: int)
    requires submitCount.Some? ==> IsUint32(submitCount.value)
    requires perfFreq > 0
    ensures var w := VsyncStep(st, syncInterval, submitCount, query, perfFreq, qpcNow, timeNowUs).writes;
            w.lastQueueDisplayTime.Some? ==>
              w.lastQueueDisplayTime.value
              >= timeNowUs + (QpcToUs(st.lastSubmitQpc, perfFreq) - QpcToUs(qpcNow, perfFreq))
  {
    var o := VsyncStep(st, syncInterval, submitCount, query, perfFreq, qpcNow, timeNowUs);
    if o.writes.lastQueueDisplayTime.Some? {
      var predicted := PredictedDisplayQpc(query.stats, submitCount.value, o.state.vsyncDurationQpc);
      QpcToUsMonotone(st.lastSubmitQpc, predicted, perfFreq);
    }
  }

  /** queued_frames * vsync_duration_qpc stays within int64 for every state the
      estimator can be in: the factors are an `int` and a value below 2^32. */
  lemma PredictionProductInRange(st: State, submitCount: int, s: FrameStatistics)
    requires Valid(st) && WellTyped(s) && IsUint32(submitCount)
    ensures IsInt64(QueuedFrames(submitCount, ExpectedSyncPresentCount(s)) * st.vsyncDurationQpc)
  {
    var q := QueuedFrames(submitCount, ExpectedSyncPresentCount(s));
    var p := st.vsyncDurationQpc;
    var a := if q >= 0 then q else -q;
    MulMonotone(a, TWO_31, p);
    MulMonotone(p, TWO_32 - 1, TWO_31);
  }

  // ---------------------------------------------------------------------------
  // The counters' meaning

  /** Against an ideal display, whose timestamps advance by `period` ticks per
      refresh, the estimate is exactly that period, also across a wrap of the
      32-bit refresh counter, as long as the elapsed ticks fit in 32 bits. */
  lemma {:induction false} IdealDisplayPeriod(st: State, submitCount: int, s: FrameStatistics, period: int,
                                              perfFreq: int, qpcNow: int, timeNowUs: int)
    requires IsUint32(submitCount) && perfFreq > 0
    requires st.lastSyncRefreshCount != 0 && s.syncRefreshCount != 0
    requires st.lastSyncQpcTime != 0 && s.syncQpcTime != 0
    requires period > 0
    requires ToUint32(s.syncRefreshCount - st.lastSyncRefreshCount) > 0
    requires s.syncQpcTime - st.lastSyncQpcTime
             == ToUint32(s.syncRefreshCount - st.lastSyncRefreshCount) * period
    requires s.syncQpcTime - st.lastSyncQpcTime < TWO_32
    ensures VsyncStep(st, 1, Some(submitCount), StatsOk(s), perfFreq, qpcNow, timeNowUs)
              .state.vsyncDurationQpc == period
  {
    var n := ToUint32(s.syncRefreshCount - st.lastSyncRefreshCount);
    var ticks := s.syncQpcTime - st.lastSyncQpcTime;
    MulAtLeastDivisor(n, period);
    assert ticks == period * n + 0;
    DivUnique(ticks, n, period, 0);
  }

  /** queued_frames recovers the number of frames submitted after the one at
      SyncRefreshCount, whenever that number fits in an `int` (positive: frames
      still queued; negative: the statistics are ahead of the submit count). */
  lemma {:induction false} QueuedFramesCounted(s: FrameStatistics, submitCount: int, n: int, period: int)
    requires IsUint32(submitCount) && IsInt32(n)
    requires ToUint32(ExpectedSyncPresentCount(s) + n) == submitCount
    ensures QueuedFrames(submitCount, ExpectedSyncPresentCount(s)) == n
    ensures PredictedDisplayQpc(s, submitCount, period) == s.syncQpcTime + n * period
  {
    var e := ExpectedSyncPresentCount(s);
    var m := QueuedFrames(submitCount, e);
    assert ToUint32(e + m) == submitCount;
    CongruentClose(e + n, e + m);
  }

  /** Two integers less than 2^32 apart with the same 32-bit pattern are equal. */
  lemma CongruentClose(x: int, y: int)
    requires ToUint32(x) == ToUint32(y)
    requires -TWO_32 < x - y < TWO_32
    ensures x == y
  {
    var k := x / TWO_32 - y / TWO_32;
    assert x - y == k * TWO_32;
    if k > 0 {
      MulAtLeastDivisor(k, TWO_32);
    } else if k < 0 {
      MulAtLeastDivisor(-k, TWO_32);
    }
  }

  /** In flip-model presentation both pairs refer to the same refresh: the
      expected present count is PresentCount itself, that frame is predicted
      at SyncQPCTime, and a frame submitted `k` presents later (an `int`
      distance) is predicted `k` periods after it. */
  lemma {:induction false} FlipModelPrediction(s: FrameStatistics, k: int, period: int)
    requires WellTyped(s) && s.presentRefreshCount == s.syncRefreshCount && IsInt32(k)
    ensures ExpectedSyncPresentCount(s) == s.presentCount
    ensures PredictedDisplayQpc(s, s.presentCount, period) == s.syncQpcTime
    ensures PredictedDisplayQpc(s, ToUint32(s.presentCount + k), period) == s.syncQpcTime + k * period
  {
    QueuedFramesCounted(s, ToUint32(s.presentCount + k), k, period);
  }

  // ---------------------------------------------------------------------------
  // Sequences of calls

  /** After a DISJOINT report the next good sample cannot be compared with the
      old timeline: it is stored, but the period estimate is left as it was. */
  lemma DisjointThenSample(st: State, c1: int, c2: int, s: FrameStatistics,
                           perfFreq: int, qpcNow: int, timeNowUs: int)
    requires IsUint32(c1) && IsUint32(c2) && perfFreq > 0
    ensures var o1 := VsyncStep(st, 1, Some(c1), StatsDisjoint, perfFreq, qpcNow, timeNowUs);
            var o2 := VsyncStep(o1.state, 1, Some(c2), StatsOk(s), perfFreq, qpcNow, timeNowUs);
            o2.state == State(s.syncRefreshCount, s.syncQpcTime, st.vsyncDurationQpc, st.lastSubmitQpc)
  {
  }

  /** A sample whose refresh count or timestamp equals the stored one gives no
      new estimate: the previous period persists rather than being divided
      by a stale delta. */
  lemma StaleSampleKeepsEstimate(st: State, submitCount: int, s: FrameStatistics,
                                 perfFreq: int, qpcNow: int, timeNowUs: int)
    requires IsUint32(submitCount) && perfFreq > 0
    requires s.syncRefreshCount == st.lastSyncRefreshCount || s.syncQpcTime == st.lastSyncQpcTime
    ensures VsyncStep(st, 1, Some(submitCount), StatsOk(s), perfFreq, qpcNow, timeNowUs)
              .state.vsyncDurationQpc == st.vsyncDurationQpc
  {
  }

  /** Two samples at 10 MHz, 2 refreshes and 20000 ticks apart: the first only
      primes the state, the second gives a period of 10000 ticks, reported as
      1000 us (100 Hz). */
  lemma TwoSampleScenario(c1: int, c2: int, qpcNow: int, timeNowUs: int)
    requires IsUint32(c1) && IsUint32(c2)
    ensures var freq := 10_000_000;
            var o1 := VsyncStep(Initial, 1, Some(c1), StatsOk(FrameStatistics(0, 0, 100, 1_000_000)),
                                freq, qpcNow, timeNowUs);
            var o2 := VsyncStep(o1.state, 1, Some(c2), StatsOk(FrameStatistics(0, 0, 102, 1_020_000)),
                                freq, qpcNow, timeNowUs);
            o1.state == State(100, 1_000_000, 0, 0) && o1.writes == Writes(Some(0), None, None)
            && o2.state == State(102, 1_020_000, 10_000, 0)
            && o2.writes == Writes(Some(0), Some(1000), None)
  {
  }

  // ---------------------------------------------------------------------------
  // Runs of calls: d3d11_swap_buffers and d3d11_get_vsync interleaved

  /** One call into the estimator: a swap_buffers that read `qpc` as the
      submit time, or a get_vsync with its query results and clock readings. */
  datatype Event =
    | Submitted(qpc: int)
    | Polled(submitCount: Option<int>, query: StatsQuery, qpcNow: int, timeNowUs: int)

  predicate EventWellTyped(e: Event) {
    match e
    case Submitted(qpc) => IsInt64(qpc)
    case Polled(c, q, _, _) => (c.Some? ==> IsUint32(c.value)) && QueryWellTyped(q)
  }

  predicate AllWellTyped(events: seq<Event>) {
    forall i :: 0 <= i < |events| ==> EventWellTyped(events[i])
  }

  /** Whether a run contains a get_vsync call. */
  predicate AnyPoll(events: seq<Event>) {
    events != [] && (events[0].Polled? || AnyPoll(events[1..]))
  }

  function Apply(st: State, syncInterval: int, perfFreq: int, e: Event): (r: State)
    requires perfFreq > 0 && EventWellTyped(e)
    ensures r.lastSubmitQpc == (if e.Submitted? then e.qpc else st.lastSubmitQpc)
    ensures e.Submitted? || syncInterval != 1 ==>
              r.lastSyncRefreshCount == st.lastSyncRefreshCount && r.lastSyncQpcTime == st.lastSyncQpcTime
              && r.vsyncDurationQpc == st.vsyncDurationQpc
  {
    match e
    case Submitted(qpc) => st.(lastSubmitQpc := qpc)
    case Polled(c, q, qpcNow, timeNowUs) => VsyncStep(st, syncInterval, c, q, perfFreq, qpcNow, timeNowUs).state
  }

  /** The estimator state after a run of calls, in order. */
  function Run(st: State, syncInterval: int, perfFreq: int, events: seq<Event>): (r: State)
    requires perfFreq > 0 && AllWellTyped(events)
    ensures syncInterval != 1 ==>
              r.lastSyncRefreshCount == st.lastSyncRefreshCount && r.lastSyncQpcTime == st.lastSyncQpcTime
              && r.vsyncDurationQpc == st.vsyncDurationQpc
    decreases |events|
  {
    if events == [] then st
    else Run(Apply(st, syncInterval, perfFreq, events[0]), syncInterval, perfFreq, events[1..])
  }

  /** Every interleaving of swap_buffers and get_vsync calls keeps each
      estimator field within the range of its C type. */
  lemma {:induction false} RunKeepsValid(st: State, syncInterval: int, perfFreq: int, events: seq<Event>)
    requires perfFreq > 0 && AllWellTyped(events) && Valid(st)
    ensures Valid(Run(st, syncInterval, perfFreq, events))
    decreases |events|
  {
    if events != [] {
      var next := Apply(st, syncInterval, perfFreq, events[0]);
      assert EventWellTyped(events[0]);
      assert Valid(next);
      RunKeepsValid(next, syncInterval, perfFreq, events[1..]);
    }
  }

  /** Consecutive refresh samples of a display whose timestamp advances by
      `period` ticks per refresh, close enough that the elapsed ticks fit in
      32 bits. */
  predicate IdealStep(lastCount: int, lastTime: int, s: FrameStatistics, period: int) {
    lastCount != 0 && s.syncRefreshCount != 0 && lastTime != 0 && s.syncQpcTime != 0
    && ToUint32(s.syncRefreshCount - lastCount) > 0
    && s.syncQpcTime - lastTime == ToUint32(s.syncRefreshCount - lastCount) * period
    && s.syncQpcTime - lastTime < TWO_32
  }

  /** A run in which every get_vsync call succeeds and samples such a
      display, starting from the stored sample (`lastCount`, `lastTime`). */
  predicate IdealRun(lastCount: int, lastTime: int, events: seq<Event>, period: int)
    decreases |events|
  {
    events == [] ||
    match events[0]
    case Submitted(_) => IdealRun(lastCount, lastTime, events[1..], period)
    case Polled(c, q, _, _) =>
      c.Some? && q.StatsOk? && IdealStep(lastCount, lastTime, q.stats, period)
      && IdealRun(q.stats.syncRefreshCount, q.stats.syncQpcTime, events[1..], period)
  }

  /** Against an ideal display the estimate settles on the true period at the
      first get_vsync call and stays there for the rest of the run, whatever
      swap_buffers calls come in between. */
  lemma {:induction false} IdealRunSettles(st: State, perfFreq: int, events: seq<Event>, period: int)
    requires perfFreq > 0 && AllWellTyped(events) && period > 0
    requires IdealRun(st.lastSyncRefreshCount, st.lastSyncQpcTime, events, period)
    ensures Run(st, 1, perfFreq, events).vsyncDurationQpc
            == (if AnyPoll(events) then period else st.vsyncDurationQpc)
    decreases |events|
  {
    if events != [] {
      assert EventWellTyped(events[0]);
      var next := Apply(st, 1, perfFreq, events[0]);
      match events[0]
      case Submitted(_) =>
        IdealRunSettles(next, perfFreq, events[1..], period);
      case Polled(c, q, qpcNow, timeNowUs) =>
        IdealDisplayPeriod(st, c.value, q.stats, period, perfFreq, qpcNow, timeNowUs);
        IdealRunSettles(next, perfFreq, events[1..], period);
    }
  }
}
