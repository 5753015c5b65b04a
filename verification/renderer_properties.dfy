/** Properties of the adapter query that relate its inputs to the caller's record. */
module RendererProperties {
  import opened Wrappers
  import opened Dxgi
  import opened ModeScan
  import opened Units
  import opened Renderer

  /**
   * A failure of factory creation, adapter or output enumeration, the
   * mode-count probe or the mode-list fill returns `false` before the scan
   * and the conversion run, so the caller's record is untouched.
   */
  lemma EarlyFailureLeavesTargetUntouched(screenWidth: uint32, screenHeight: uint32, target: Option<AdapterInfo>, o: Oracle)
    requires !o.ModesAvailable()
    ensures var r := GetAdapterInfo(screenWidth, screenHeight, target, o);
      !r.returned && r.target == target && r.exit != Completed && r.exit != DescFailed
  {
  }

  /**
   * On success, when some mode matches the requested resolution, the
   * refresh fields hold the rate of the highest-index matching mode.
   */
  lemma SuccessTakesLastMatch(screenWidth: uint32, screenHeight: uint32, target: Option<AdapterInfo>, o: Oracle, k: int)
    requires target.Some? && o.AllSucceed()
    requires 0 <= k < |o.modes| && Matches(o.modes[k], screenWidth, screenHeight)
    ensures var r := GetAdapterInfo(screenWidth, screenHeight, target, o);
      exists i :: IsLastMatch(o.modes, screenWidth, screenHeight, i) &&
        r.target.Some? &&
        r.target.value.num == o.modes[i].refreshRate.numerator &&
        r.target.value.den == o.modes[i].refreshRate.denominator
  {
    LastMatchExists(o.modes, screenWidth, screenHeight, k);
  }

  /**
   * Whenever the scan runs and no mode matches both dimensions, the refresh
   * fields keep the values the caller supplied: no default rate is written.
   */
  lemma NoMatchKeepsCallerRefresh(screenWidth: uint32, screenHeight: uint32, target: Option<AdapterInfo>, o: Oracle)
    requires target.Some? && o.ModesAvailable()
    requires NoMatch(o.modes, screenWidth, screenHeight)
    ensures var r := GetAdapterInfo(screenWidth, screenHeight, target, o);
      r.target.Some? &&
      r.target.value.num == target.value.num &&
      r.target.value.den == target.value.den
  {
  }

  /**
   * Matching needs both dimensions: adding a mode that agrees with the
   * request on width only, or on height only, anywhere in the mode list
   * changes neither the result nor the caller's record.
   */
  lemma OneDimensionMatchIsIgnored(screenWidth: uint32, screenHeight: uint32, target: Option<AdapterInfo>,
                                   o: Oracle, k: int, m: DisplayMode)
    requires 0 <= k <= |o.modes| < MaxUint32
    requires (m.width == screenWidth) != (m.height == screenHeight)
    ensures var longer := o.(modes := o.modes[..k] + [m] + o.modes[k..]);
      var r, r' := GetAdapterInfo(screenWidth, screenHeight, target, o), GetAdapterInfo(screenWidth, screenHeight, target, longer);
      r'.returned == r.returned && r'.target == r.target
  {
    if target.Some? {
      NonMatchingModeIsIgnored(o.modes, k, m, screenWidth, screenHeight, target.value.Refresh());
    }
  }

  /**
   * If reading the adapter description fails after the scan, the query
   * returns `false` with the refresh fields already set by the scan and the
   * video-memory field still as the caller supplied it.
   */
  lemma DescFailureAfterScan(screenWidth: uint32, screenHeight: uint32, target: Option<AdapterInfo>, o: Oracle)
    requires target.Some? && o.ModesAvailable() && !o.getAdapterDesc
    ensures var r := GetAdapterInfo(screenWidth, screenHeight, target, o);
      !r.returned && r.exit == DescFailed && r.target.Some? &&
      r.target.value.videoMemoryMB == target.value.videoMemoryMB &&
      r.target.value.Refresh() == ScanModes(o.modes, screenWidth, screenHeight, target.value.Refresh())
  {
  }

  /**
   * On success the video-memory field holds the whole megabytes of the
   * reported byte count, truncated, never more than the byte count.
   */
  lemma SuccessConvertsMemory(screenWidth: uint32, screenHeight: uint32, target: Option<AdapterInfo>, o: Oracle)
    requires target.Some? && o.AllSucceed()
    ensures var r := GetAdapterInfo(screenWidth, screenHeight, target, o);
      r.target.Some? &&
      var mb := r.target.value.videoMemoryMB;
      mb == o.dedicatedVideoMemory / 1048576 &&
      mb * 1048576 <= o.dedicatedVideoMemory < (mb + 1) * 1048576 &&
      mb <= o.dedicatedVideoMemory
  {
  }

  /**
   * Two modes at 800x600, first at 60/1 and then at 59/1: the query settles
   * on 59/1, the later of the two.
   */
  lemma LastMatchScenario(target: AdapterInfo)
    ensures var modes := [DisplayMode(800, 600, Rational(60, 1)), DisplayMode(800, 600, Rational(59, 1))];
      var o := Oracle(true, true, true, true, true, modes, true, 0x2000_0000);
      var r := GetAdapterInfo(800, 600, Some(target), o);
      r.returned && r.target == Some(AdapterInfo(1, 59, 512))
  {
  }

  /**
   * As written, every failure after the factory was created returns without
   * releasing anything, although it holds every resource its successful
   * calls acquired, the factory at least.
   */
  lemma LateFailureLeaks(screenWidth: uint32, screenHeight: uint32, target: Option<AdapterInfo>, o: Oracle)
    requires target.Some? && o.createFactory
    requires !(forall c :: o.Succeeds(c))
    ensures var r := GetAdapterInfo(screenWidth, screenHeight, target, o);
      r.acquired == Held(r.calls, o) && Factory in r.acquired &&
      r.released == [] && !NoLeak(r)
  {
    AcquiredIsHeld(screenWidth, screenHeight, target, o);
  }

  /** A concrete leak: adapter enumeration fails after the factory was created. */
  lemma AdapterFailureLeaksFactory(target: AdapterInfo)
    ensures var o := Oracle(true, false, true, true, true, [], true, 0);
      var r := GetAdapterInfo(1920, 1080, Some(target), o);
      !r.returned && r.acquired == [Factory] && r.released == []
  {
  }
}
