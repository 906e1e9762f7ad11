/** The D3D11 presentation context: the state of `struct priv` (and the `ra`
    pointer of the host's `struct ra_ctx`) as a class whose methods are the
    context's entry points. Platform and collaborator calls are not executed:
    their results are parameters, and the calls themselves are appended, in
    order, to the log `calls`. */
module D3D11Context {
  import opened Wrappers
  import opened CTypes
  import opened QpcClock
  import Est = VsyncEstimator

  /** A render-target wrapper (struct ra_tex): an identity, and the depth of
      the first component of its format. */
  datatype Tex = Tex(id: nat, componentDepth: int)

  /** The framebuffer handed to the renderer at frame start (struct ra_fbo). */
  datatype Fbo = Fbo(tex: Tex, flip: bool)

  /** What get_backbuffer's collaborators return: whether
      IDXGISwapChain::GetBuffer succeeded, and the wrapper ra_d3d11_wrap_tex
      made of the buffer (None: it failed). */
  datatype BufferQuery = BufferQuery(getBufferOk: bool, wrapped: Option<Tex>)

  /** get_backbuffer: the wrapped buffer 0 of the swapchain, or none. */
  function GetBackbuffer(q: BufferQuery): (tex: Option<Tex>)
    ensures tex.Some? <==> q.getBufferOk && q.wrapped.Some?
    ensures tex.Some? ==> tex == q.wrapped
  {
    if q.getBufferOk then q.wrapped else None
  }

  /** The platform and collaborator calls the context makes. */
  datatype Call =
    | CreateDevice                    // mp_d3d11_create_present_device
    | InitSpirv                       // spirv_compiler_init
    | CreateRa                        // ra_d3d11_create
    | InitWindow                      // vo_w32_init
    | W32Control                      // vo_w32_control
    | CreateSwapchain(length: int)    // mp_d3d11_create_swapchain
    | GetBuffer                       // IDXGISwapChain::GetBuffer, then ra_d3d11_wrap_tex
    | ConfigWindow                    // vo_w32_config
    | ResizeBuffers(width: int, height: int)
    | Present(syncInterval: int)
    | GetLastPresentCount
    | GetFrameStatistics
    | FlushRa                         // ra_d3d11_flush
    | FreeBackbuffer(tex: Tex)        // ra_tex_free of a held backbuffer
    | ReleaseSwapchain
    | UninitWindow                    // vo_w32_uninit
    | ReleaseDevice
    | DestroyRa

  /** Bit of the event mask that reports a window resize (VO_EVENT_RESIZE). */
  const VO_EVENT_RESIZE: nat := 2
  /** The "request failed" status of the control entry point (VO_ERROR). */
  const VO_ERROR: int := -1

  /** `*events & VO_EVENT_RESIZE`: whether the resize bit of the mask is set. */
  function HasResizeEvent(events: nat): (b: bool)
    ensures b <==> events % (2 * VO_EVENT_RESIZE) >= VO_EVENT_RESIZE
  {
    (events / VO_EVENT_RESIZE) % 2 == 1
  }

  /** The calls resize makes, given the backbuffer it holds: free that
      backbuffer first, resize the buffers, and fetch the backbuffer again
      only when the resize succeeded. */
  function ResizeCalls(held: Option<Tex>, width: int, height: int, resizeOk: bool): (cs: seq<Call>)
    ensures |cs| >= 1
    ensures cs[0] == (if held.Some? then FreeBackbuffer(held.value) else ResizeBuffers(width, height))
    ensures (GetBuffer in cs) == resizeOk
    ensures cs[|cs| - 1] == (if resizeOk then GetBuffer else ResizeBuffers(width, height))
    ensures |cs| == (if held.Some? then 1 else 0) + 1 + (if resizeOk then 1 else 0)
    ensures cs[if held.Some? then 1 else 0] == ResizeBuffers(width, height)
  {
    (if held.Some? then [FreeBackbuffer(held.value)] else [])
    + [ResizeBuffers(width, height)]
    + (if resizeOk then [GetBuffer] else [])
  }

  /** The queries d3d11_get_vsync makes: GetLastPresentCount only with sync
      interval 1, and GetFrameStatistics only after that succeeded. */
  function VsyncQueries(syncInterval: int, submitCount: Option<int>): (cs: seq<Call>)
    ensures (GetLastPresentCount in cs) == (syncInterval == 1)
    ensures (GetFrameStatistics in cs) == (syncInterval == 1 && submitCount.Some?)
    ensures GetFrameStatistics in cs ==> cs == [GetLastPresentCount, GetFrameStatistics]
    ensures |cs| <= 2
    ensures cs == [GetLastPresentCount, GetFrameStatistics][..|cs|]
  {
    if syncInterval != 1 then []
    else if submitCount.None? then [GetLastPresentCount]
    else [GetLastPresentCount, GetFrameStatistics]
  }

  /** The calls d3d11_uninit makes, given what is held: the backbuffer (only
      freed through a live ra), the swapchain, the window (always), the
      device, and the ra last. Releasing what is not held is a no-op. */
  function UninitCalls(raCreated: bool, backbuffer: Option<Tex>, swapchainHeld: bool,
                       deviceHeld: bool): (cs: seq<Call>)
    ensures UninitWindow in cs
    ensures forall i :: 0 <= i < |cs| ==> ReleaseRank(cs[i]) >= 0
    ensures |cs| <= 5
  {
    (if raCreated && backbuffer.Some? then [FreeBackbuffer(backbuffer.value)] else [])
    + (if swapchainHeld then [ReleaseSwapchain] else [])
    + [UninitWindow]
    + (if deviceHeld then [ReleaseDevice] else [])
    + (if raCreated then [DestroyRa] else [])
  }

  /** Position of a release call in the teardown order; -1 for other calls. */
  function ReleaseRank(c: Call): int {
    match c
    case FreeBackbuffer(_) => 0
    case ReleaseSwapchain => 1
    case UninitWindow => 2
    case ReleaseDevice => 3
    case DestroyRa => 4
    case _ => -1
  }

  /** Teardown happens in the fixed order backbuffer, swapchain, window,
      device, ra: every call is a release, each comes strictly after the ones
      of lower rank, each resource is released exactly when it is held, and
      the ra is destroyed last so the objects it holds are gone by then. */
  lemma UninitReleaseOrder(raCreated: bool, backbuffer: Option<Tex>, swapchainHeld: bool,
                           deviceHeld: bool)
    ensures var cs := UninitCalls(raCreated, backbuffer, swapchainHeld, deviceHeld);
            (forall i, j :: 0 <= i < j < |cs| ==> 0 <= ReleaseRank(cs[i]) < ReleaseRank(cs[j]))
            && (raCreated && backbuffer.Some? <==> cs[0].FreeBackbuffer?)
            && (raCreated && backbuffer.Some? ==> cs[0] == FreeBackbuffer(backbuffer.value))
            && (swapchainHeld <==> ReleaseSwapchain in cs)
            && UninitWindow in cs
            && (deviceHeld <==> ReleaseDevice in cs)
            && (raCreated <==> cs[|cs| - 1] == DestroyRa)
  {
  }

  /** The options the context reads: d3d11-sync-interval (0-4) and the
      host's swapchain depth. */
  datatype Options = Options(syncInterval: int, swapchainDepth: int)

  /** What the collaborators d3d11_init calls return, in the order it calls them. */
  datatype InitEnv = InitEnv(deviceOk: bool, spirvOk: bool, raOk: bool, windowOk: bool,
                             swapchainOk: bool, buffer: BufferQuery)

  /** Whether every step of d3d11_init succeeds. */
  predicate InitSucceeds(env: InitEnv) {
    env.deviceOk && env.spirvOk && env.raOk && env.windowOk && env.swapchainOk
    && GetBackbuffer(env.buffer).Some?
  }

  /** Every step d3d11_init takes when all succeed, in order. */
  function InitSteps(opts: Options): seq<Call> {
    [CreateDevice, InitSpirv, CreateRa, InitWindow, CreateSwapchain(opts.swapchainDepth + 2), GetBuffer]
  }

  /** Whether step `i` of InitSteps succeeds (the backbuffer step is judged
      by InitSucceeds). */
  predicate StepOk(env: InitEnv, i: int) {
    match i
    case 0 => env.deviceOk
    case 1 => env.spirvOk
    case 2 => env.raOk
    case 3 => env.windowOk
    case 4 => env.swapchainOk
    case _ => true
  }

  /** The calls d3d11_init attempts before it stops: each step is tried only
      when the ones before it succeeded. The swapchain holds the swapchain
      depth plus one buffer for the backbuffer and one of slack. */
  function InitAttempts(opts: Options, env: InitEnv): (cs: seq<Call>)
    ensures 1 <= |cs| <= |InitSteps(opts)| && cs == InitSteps(opts)[..|cs|]
    ensures forall i :: 0 <= i < |cs| - 1 ==> StepOk(env, i)
    ensures |cs| < |InitSteps(opts)| ==> !StepOk(env, |cs| - 1)
  {
    var swapchain := CreateSwapchain(opts.swapchainDepth + 2);
    if !env.deviceOk then [CreateDevice]
    else if !env.spirvOk then [CreateDevice, InitSpirv]
    else if !env.raOk then [CreateDevice, InitSpirv, CreateRa]
    else if !env.windowOk then [CreateDevice, InitSpirv, CreateRa, InitWindow]
    else if !env.swapchainOk then [CreateDevice, InitSpirv, CreateRa, InitWindow, swapchain]
    else [CreateDevice, InitSpirv, CreateRa, InitWindow, swapchain, GetBuffer]
  }

  /** The caller-owned struct vo_vsync_info that d3d11_get_vsync fills in. */
  class VsyncInfo {
    var skippedVsyncs: int
    var vsyncDuration: int
    var lastQueueDisplayTime: int

    constructor (skipped: int, duration: int, displayTime: int)
      ensures skippedVsyncs == skipped && vsyncDuration == duration
      ensures lastQueueDisplayTime == displayTime
    {
      skippedVsyncs, vsyncDuration, lastQueueDisplayTime := skipped, duration, displayTime;
    }
  }

  class Context {
    var syncInterval: int
    var perfFreq: int
    var raCreated: bool
    var deviceHeld: bool
    var swapchainHeld: bool
    var backbuffer: Option<Tex>
    var lastSyncRefreshCount: int
    var lastSyncQpcTime: int
    var vsyncDurationQpc: int
    var lastSubmitQpc: int
    /** Every platform and collaborator call made so far, in order. */
    var calls: seq<Call>

    /** A backbuffer is only ever held through a live ra, the sync interval
        is in the option's range, and the estimator fields are in the ranges
        of their C types. */
    ghost predicate Valid()
      reads this
    {
      0 <= syncInterval <= 4 && (backbuffer.Some? ==> raCreated) && Est.Valid(Estimator())
    }

    /** The estimator's share of the state. */
    function Estimator(): Est.State
      reads this
    {
      Est.State(lastSyncRefreshCount, lastSyncQpcTime, vsyncDurationQpc, lastSubmitQpc)
    }

    /** The zero-filled state talloc_zero gives a fresh context. */
    constructor Zeroed()
      ensures Valid()
      ensures syncInterval == 0 && perfFreq == 0 && Estimator() == Est.Initial
      ensures !raCreated && !deviceHeld && !swapchainHeld && backbuffer.None? && calls == []
    {
      syncInterval, perfFreq := 0, 0;
      raCreated, deviceHeld, swapchainHeld, backbuffer := false, false, false, None;
      lastSyncRefreshCount, lastSyncQpcTime, vsyncDurationQpc, lastSubmitQpc := 0, 0, 0, 0;
      calls := [];
    }

    /** d3d11_init: allocate the zeroed state, capture the counter frequency
        once, then create the device, the shader compiler, the ra, the
        window, the swapchain and the backbuffer, stopping at the first
        failure and tearing down with d3d11_uninit what was created. */
    static method Init(opts: Options, freq: int, env: InitEnv) returns (ctx: Context, ok: bool)
      requires 0 <= opts.syncInterval <= 4
      ensures fresh(ctx) && ctx.Valid()
      ensures ctx.syncInterval == opts.syncInterval && ctx.perfFreq == freq
      ensures ctx.Estimator() == Est.Initial
      ensures ok <==> InitSucceeds(env)
      ensures ok ==> ctx.raCreated && ctx.deviceHeld && ctx.swapchainHeld
                     && ctx.backbuffer == GetBackbuffer(env.buffer)
                     && ctx.calls == InitAttempts(opts, env)
      ensures !ok ==> !ctx.raCreated && !ctx.deviceHeld && !ctx.swapchainHeld && ctx.backbuffer.None?
      ensures !ok ==> ctx.calls == InitAttempts(opts, env)
                        + UninitCalls(env.deviceOk && env.spirvOk && env.raOk, None,
                                      env.deviceOk && env.spirvOk && env.raOk
                                      && env.windowOk && env.swapchainOk,
                                      env.deviceOk)
    {
      ctx := new Context.Zeroed();
      ctx.syncInterval := opts.syncInterval;
      ctx.perfFreq := freq;
      ok := ctx.CreateResources(opts, env);
      if !ok {
        ctx.Uninit();
      }
    }

    /** The steps of d3d11_init before its error label, on a zeroed context:
        each step runs only when the ones before it succeeded, and what a
        step created is held afterwards. The backbuffer is kept only when
        every step succeeded. */
    method CreateResources(opts: Options, env: InitEnv) returns (ok: bool)
      requires Valid()
      requires !raCreated && !deviceHeld && !swapchainHeld && backbuffer.None? && calls == []
      modifies this`raCreated, this`deviceHeld, this`swapchainHeld, this`backbuffer, this`calls
      ensures Valid()
      ensures ok <==> InitSucceeds(env)
      ensures calls == InitAttempts(opts, env)
      ensures deviceHeld == env.deviceOk
      ensures raCreated == (env.deviceOk && env.spirvOk && env.raOk)
      ensures swapchainHeld == (raCreated && env.windowOk && env.swapchainOk)
      ensures backbuffer == (if ok then GetBackbuffer(env.buffer) else None)
    {
      calls := [CreateDevice];
      deviceHeld := env.deviceOk;
      if !env.deviceOk {
        return false;
      }
      calls := calls + [InitSpirv];
      if !env.spirvOk {
        return false;
      }
      calls := calls + [CreateRa];
      raCreated := env.raOk;
      if !env.raOk {
        return false;
      }
      calls := calls + [InitWindow];
      if !env.windowOk {
        return false;
      }
      calls := calls + [CreateSwapchain(opts.swapchainDepth + 2)];
      swapchainHeld := env.swapchainOk;
      if !env.swapchainOk {
        return false;
      }
      calls := calls + [GetBuffer];
      backbuffer := GetBackbuffer(env.buffer);
      return backbuffer.Some?;
    }

    /** resize: free the backbuffer, resize the swapchain's buffers, and on
        success fetch the backbuffer again. A failed resize returns false
        with no backbuffer held; a successful one returns true even when the
        new backbuffer could not be fetched. */
    method Resize(width: int, height: int, resizeOk: bool, buffer: BufferQuery) returns (ok: bool)
      requires Valid() && raCreated
      modifies this`backbuffer, this`calls
      ensures Valid()
      ensures ok == resizeOk
      ensures backbuffer == (if resizeOk then GetBackbuffer(buffer) else None)
      ensures calls == old(calls) + ResizeCalls(old(backbuffer), width, height, resizeOk)
    {
      if backbuffer.Some? {
        calls := calls + [FreeBackbuffer(backbuffer.value)];
      }
      backbuffer := None;
      calls := calls + [ResizeBuffers(width, height)];
      if !resizeOk {
        return false;
      }
      calls := calls + [GetBuffer];
      backbuffer := GetBackbuffer(buffer);
      return true;
    }

    /** d3d11_reconfig: let the window adapt, then resize. */
    method Reconfig(width: int, height: int, resizeOk: bool, buffer: BufferQuery) returns (ok: bool)
      requires Valid() && raCreated
      modifies this`backbuffer, this`calls
      ensures Valid()
      ensures ok == resizeOk
      ensures backbuffer == (if resizeOk then GetBackbuffer(buffer) else None)
      ensures calls == old(calls) + [ConfigWindow] + ResizeCalls(old(backbuffer), width, height, resizeOk)
    {
      calls := calls + [ConfigWindow];
      ok := Resize(width, height, resizeOk, buffer);
    }

    /** d3d11_color_depth: the depth of the backbuffer's first component, or
        0 when no backbuffer is held. */
    method ColorDepth() returns (depth: int)
      ensures backbuffer.None? ==> depth == 0
      ensures backbuffer.Some? ==> depth == backbuffer.value.componentDepth
    {
      if backbuffer.None? {
        return 0;
      }
      return backbuffer.value.componentDepth;
    }

    /** d3d11_start_frame: a frame can start exactly when a backbuffer is
        held; the framebuffer is then that backbuffer, not flipped. Nothing
        is written otherwise. */
    method StartFrame() returns (ok: bool, fbo: Option<Fbo>)
      ensures ok <==> backbuffer.Some?
      ensures ok ==> fbo == Some(Fbo(backbuffer.value, false))
      ensures !ok ==> fbo.None?
    {
      if backbuffer.None? {
        return false, None;
      }
      return true, Some(Fbo(backbuffer.value, false));
    }

    /** d3d11_submit_frame: flush the ra's pending work; always succeeds. */
    method SubmitFrame() returns (ok: bool)
      modifies this`calls
      ensures ok
      ensures calls == old(calls) + [FlushRa]
    {
      calls := calls + [FlushRa];
      return true;
    }

    /** d3d11_swap_buffers: record the tick count of this submission (read as
        `qpcNow`), then present with the configured sync interval. */
    method SwapBuffers(qpcNow: int)
      requires Valid() && IsInt64(qpcNow)
      modifies this`lastSubmitQpc, this`calls
      ensures Valid()
      ensures Estimator() == old(Estimator()).(lastSubmitQpc := qpcNow)
      ensures calls == old(calls) + [Present(syncInterval)]
    {
      lastSubmitQpc := qpcNow;
      calls := calls + [Present(syncInterval)];
    }

    /** d3d11_get_vsync, step by step. `submitCount` is what
        GetLastPresentCount returned (None: it failed), `query` what
        GetFrameStatistics returned, `qpcNow` and `timeNowUs` the readings
        of the tick counter and of mp_time_us. The estimator moves exactly as
        VsyncStep says, and `info` receives exactly its writes. */
    method GetVsync(info: VsyncInfo, submitCount: Option<int>, query: Est.StatsQuery,
                    qpcNow: int, timeNowUs: int)
      requires Valid() && perfFreq > 0
      requires submitCount.Some? ==> IsUint32(submitCount.value)
      requires Est.QueryWellTyped(query)
      modifies this`lastSyncRefreshCount, this`lastSyncQpcTime, this`vsyncDurationQpc, this`calls, info
      ensures Valid()
      ensures calls == old(calls) + VsyncQueries(syncInterval, submitCount)
      ensures Estimator()
              == Est.VsyncStep(old(Estimator()), syncInterval, submitCount, query,
                               perfFreq, qpcNow, timeNowUs).state
      ensures var w := Est.VsyncStep(old(Estimator()), syncInterval, submitCount, query,
                                     perfFreq, qpcNow, timeNowUs).writes;
              info.skippedVsyncs == w.skippedVsyncs.GetOr(old(info.skippedVsyncs))
              && info.vsyncDuration == w.vsyncDuration.GetOr(old(info.vsyncDuration))
              && info.lastQueueDisplayTime == w.lastQueueDisplayTime.GetOr(old(info.lastQueueDisplayTime))
    {
      // Both queries precede every change of state: log them at once.
      calls := calls + VsyncQueries(syncInterval, submitCount);
      if syncInterval != 1 {
        return;
      }
      if submitCount.None? {
        return;
      }
      if query.StatsDisjoint? {
        lastSyncRefreshCount := 0;
        lastSyncQpcTime := 0;
      }
      if !query.StatsOk? {
        return;
      }
      UseSample(info, submitCount.value, query.stats, qpcNow, timeNowUs);
    }

    /** The part of d3d11_get_vsync that uses a successfully read sample:
        store it, update the period estimate, and publish what is known.
        The estimator moves, and `info` is written, exactly as SampleStep
        says. */
    method UseSample(info: VsyncInfo, submit: int, stats: Est.FrameStatistics,
                     qpcNow: int, timeNowUs: int)
      requires Valid() && perfFreq > 0 && IsUint32(submit) && Est.WellTyped(stats)
      modifies this`lastSyncRefreshCount, this`lastSyncQpcTime, this`vsyncDurationQpc, info
      ensures Valid()
      ensures Estimator() == Est.SampleStep(old(Estimator()), submit, stats, perfFreq, qpcNow, timeNowUs).state
      ensures var w := Est.SampleStep(old(Estimator()), submit, stats, perfFreq, qpcNow, timeNowUs).writes;
              info.skippedVsyncs == w.skippedVsyncs.GetOr(old(info.skippedVsyncs))
              && info.vsyncDuration == w.vsyncDuration.GetOr(old(info.vsyncDuration))
              && info.lastQueueDisplayTime == w.lastQueueDisplayTime.GetOr(old(info.lastQueueDisplayTime))
    {
      ghost var st := Estimator();
      info.skippedVsyncs := 0;

      var srcPassed := 0;
      if stats.syncRefreshCount != 0 && lastSyncRefreshCount != 0 {
        srcPassed := ToUint32(stats.syncRefreshCount - lastSyncRefreshCount);
      }
      lastSyncRefreshCount := stats.syncRefreshCount;
      assert srcPassed == Est.RefreshesPassed(st.lastSyncRefreshCount, stats.syncRefreshCount);

      var sqtPassed := 0;
      if stats.syncQpcTime != 0 && lastSyncQpcTime != 0 {
        sqtPassed := ToUint32(stats.syncQpcTime - lastSyncQpcTime);
      }
      lastSyncQpcTime := stats.syncQpcTime;
      assert sqtPassed == Est.TicksPassed(st.lastSyncQpcTime, stats.syncQpcTime);

      if srcPassed != 0 && sqtPassed != 0 {
        vsyncDurationQpc := sqtPassed / srcPassed;
      }
      assert vsyncDurationQpc == Est.NextPeriod(st.vsyncDurationQpc, srcPassed, sqtPassed);
      if vsyncDurationQpc != 0 {
        info.vsyncDuration := QpcToUs(vsyncDurationQpc, perfFreq);
      }

      if vsyncDurationQpc != 0 && stats.presentCount != 0 && stats.presentRefreshCount != 0
         && stats.syncRefreshCount != 0 && stats.syncQpcTime != 0
      {
        PredictDisplayTime(info, submit, stats, qpcNow, timeNowUs);
      }
    }

    /** The display-time prediction of d3d11_get_vsync, once the period is
        known and the statistics are populated: exactly PublishedDisplayTime. */
    method PredictDisplayTime(info: VsyncInfo, submit: int, stats: Est.FrameStatistics,
                              qpcNow: int, timeNowUs: int)
      requires perfFreq > 0 && IsUint32(submit)
      modifies info
      ensures info.skippedVsyncs == old(info.skippedVsyncs)
      ensures info.vsyncDuration == old(info.vsyncDuration)
      ensures info.lastQueueDisplayTime
              == Est.PublishedDisplayTime(lastSubmitQpc, stats, submit, vsyncDurationQpc, perfFreq,
                                          qpcNow, timeNowUs).GetOr(old(info.lastQueueDisplayTime))
    {
      var expectedSyncPc := ToUint32(stats.presentCount
                                     + ToUint32(stats.syncRefreshCount - stats.presentRefreshCount));
      assert expectedSyncPc == Est.ExpectedSyncPresentCount(stats);
      var queuedFrames := ToInt32(ToUint32(submit - expectedSyncPc));
      assert queuedFrames == Est.QueuedFrames(submit, expectedSyncPc);
      var lastQueueDisplayTimeQpc := stats.syncQpcTime + queuedFrames * vsyncDurationQpc;
      assert lastQueueDisplayTimeQpc == Est.PredictedDisplayQpc(stats, submit, vsyncDurationQpc);
      if lastQueueDisplayTimeQpc >= lastSubmitQpc {
        info.lastQueueDisplayTime := timeNowUs + (QpcToUs(lastQueueDisplayTimeQpc, perfFreq)
                                                  - QpcToUs(qpcNow, perfFreq));
      }
    }

    /** d3d11_control: forward to the window's control handler (its status
        `w32Status` and the event mask `events` it reported are parameters);
        on a resize event resize the swapchain, and report VO_ERROR if that
        fails. */
    method Control(w32Status: int, events: nat, width: int, height: int, resizeOk: bool,
                   buffer: BufferQuery) returns (status: int)
      requires Valid() && raCreated
      modifies this`backbuffer, this`calls
      ensures Valid()
      ensures status == (if HasResizeEvent(events) && !resizeOk then VO_ERROR else w32Status)
      ensures !HasResizeEvent(events) ==> backbuffer == old(backbuffer)
      ensures HasResizeEvent(events) ==>
                backbuffer == (if resizeOk then GetBackbuffer(buffer) else None)
      ensures calls == old(calls) + [W32Control]
                       + (if HasResizeEvent(events) then ResizeCalls(old(backbuffer), width, height, resizeOk)
                          else [])
    {
      calls := calls + [W32Control];
      if HasResizeEvent(events) {
        var ok := Resize(width, height, resizeOk, buffer);
        if !ok {
          return VO_ERROR;
        }
      }
      return w32Status;
    }

    /** d3d11_uninit: release what is held in the fixed teardown order. The
        source leaves the host's ra pointer dangling after destroying it; the
        model records the ra as gone. */
    method Uninit()
      requires Valid()
      modifies this`raCreated, this`deviceHeld, this`swapchainHeld, this`backbuffer, this`calls
      ensures Valid()
      ensures !raCreated && !deviceHeld && !swapchainHeld && backbuffer.None?
      ensures calls == old(calls) + UninitCalls(old(raCreated), old(backbuffer),
                                                old(swapchainHeld), old(deviceHeld))
    {
      // Each release is a no-op when the resource is not held; the calls
      // made are appended to the log in the order they are made.
      var freed: seq<Call> := if raCreated && backbuffer.Some? then [FreeBackbuffer(backbuffer.value)] else [];
      if raCreated {
        backbuffer := None;
      }
      var swapchain: seq<Call> := if swapchainHeld then [ReleaseSwapchain] else [];
      swapchainHeld := false;
      var device: seq<Call> := if deviceHeld then [ReleaseDevice] else [];
      deviceHeld := false;
      var ra: seq<Call> := if raCreated then [DestroyRa] else [];
      raCreated := false;
      calls := calls + (freed + swapchain + [UninitWindow] + device + ra);
    }
  }

  /** A failed swapchain resize during event handling: the control entry
      point reports VO_ERROR, and afterwards no frame can start and the
      colour depth reads as 0. */
  method ResizeFailureStopsFrames(ctx: Context, w32Status: int, events: nat, width: int, height: int,
                                  buffer: BufferQuery) returns (status: int, started: bool, depth: int)
    requires ctx.Valid() && ctx.raCreated && HasResizeEvent(events)
    modifies ctx`backbuffer, ctx`calls
    ensures status == VO_ERROR && !started && depth == 0
    ensures ctx.backbuffer.None?
  {
    status := ctx.Control(w32Status, events, width, height, false, buffer);
    var fbo;
    started, fbo := ctx.StartFrame();
    depth := ctx.ColorDepth();
  }

  /** A successful resize releases the old backbuffer before resizing and
      then hands out the newly fetched one at the next frame start. */
  method ResizeReacquiresBackbuffer(ctx: Context, width: int, height: int, newBuffer: Tex)
      returns (ok: bool, fbo: Option<Fbo>)
    requires ctx.Valid() && ctx.raCreated
    modifies ctx`backbuffer, ctx`calls
    ensures ok && fbo == Some(Fbo(newBuffer, false))
    ensures ctx.calls == old(ctx.calls)
                         + (if old(ctx.backbuffer).Some? then [FreeBackbuffer(old(ctx.backbuffer).value)] else [])
                         + [ResizeBuffers(width, height), GetBuffer]
  {
    var resized := ctx.Resize(width, height, true, BufferQuery(true, Some(newBuffer)));
    ok, fbo := ctx.StartFrame();
  }
}
