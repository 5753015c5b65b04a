/**
 * The adapter query of the renderer (`GetAdapterInfo`): a guarded chain of
 * fallible library calls, the last-match display-mode scan, and the
 * bytes-to-megabytes conversion of the dedicated video memory.
 */
module Renderer {
  import opened Wrappers
  import opened Seqs
  import opened Dxgi
  import opened ModeScan
  import opened Units

  /** The caller-owned record the query fills in. */
  datatype AdapterInfo = AdapterInfo(den: uint32, num: uint32, videoMemoryMB: uint64)
  {
    function Refresh(): Rational {
      Rational(num, den)
    }
  }

  /** The `return` statement a run of the query leaves through. */
  datatype Exit =
    | NullTarget
    | FactoryFailed
    | AdapterFailed
    | OutputFailed
    | ModeCountFailed
    | ModeListFailed
    | DescFailed
    | Completed

  /**
   * The observable effect of one run: the boolean returned, the caller's
   * record afterwards (`None` when the caller passed a null pointer), the
   * exit taken, the library calls issued in order, and the resources
   * acquired and released in order.
   */
  datatype Run = Run(
    returned: bool,
    target: Option<AdapterInfo>,
    exit: Exit,
    calls: seq<Call>,
    acquired: seq<Resource>,
    released: seq<Resource>)

  /** Every resource the run acquired was also released. */
  predicate NoLeak(r: Run) {
    multiset(r.released) == multiset(r.acquired)
  }

  /** The run released exactly what it acquired, last acquired first. */
  predicate ReleasedInReverse(r: Run) {
    && |r.released| == |r.acquired|
    && forall i :: 0 <= i < |r.released| ==> r.released[i] == r.acquired[|r.acquired| - 1 - i]
  }

  /**
   * The resource a successful library call hands over: the factory, the
   * adapter, the output, and the mode array that is allocated once the
   * mode-count probe has succeeded. The other calls acquire nothing.
   */
  function Acquires(c: Call): seq<Resource> {
    match c
    case CreateFactory => [Factory]
    case EnumAdapter0 => [Adapter]
    case EnumOutput0 => [Output]
    case ProbeModeCount => [ModeArray]
    case FillModeList => []
    case GetAdapterDesc => []
  }

  /** The resources held after issuing `calls`, in acquisition order. */
  function Held(calls: seq<Call>, o: Oracle): seq<Resource>
    decreases |calls|
  {
    if |calls| == 0 then []
    else
      var last := calls[|calls| - 1];
      Held(calls[..|calls| - 1], o) + (if o.Succeeds(last) then Acquires(last) else [])
  }

  /** What each prefix of the call order holds, given that every call before the last one succeeded. */
  lemma HeldAlongCallOrder(o: Oracle)
    ensures Held(CallOrder[..1], o) == if o.createFactory then [Factory] else []
    ensures o.createFactory ==>
      Held(CallOrder[..2], o) == [Factory] + if o.enumAdapter0 then [Adapter] else []
    ensures o.createFactory && o.enumAdapter0 ==>
      Held(CallOrder[..3], o) == [Factory, Adapter] + if o.enumOutput0 then [Output] else []
    ensures o.createFactory && o.enumAdapter0 && o.enumOutput0 ==>
      Held(CallOrder[..4], o) == [Factory, Adapter, Output] + if o.probeModeCount then [ModeArray] else []
    ensures o.createFactory && o.enumAdapter0 && o.enumOutput0 && o.probeModeCount ==>
      Held(CallOrder[..5], o) == [Factory, Adapter, Output, ModeArray]
    ensures o.ModesAvailable() ==> Held(CallOrder, o) == [Factory, Adapter, Output, ModeArray]
  {
    assert CallOrder[..1][..0] == [];
    assert CallOrder[..2][..1] == CallOrder[..1];
    assert CallOrder[..3][..2] == CallOrder[..2];
    assert CallOrder[..4][..3] == CallOrder[..3];
    assert CallOrder[..5][..4] == CallOrder[..4];
    assert CallOrder[..5] == CallOrder[..|CallOrder| - 1];
  }

  /** A failed run that stops after issuing `calls`, holding `acquired`. */
  function Stop(exit: Exit, info: AdapterInfo, calls: seq<Call>, acquired: seq<Resource>): Run {
    Run(false, Some(info), exit, calls, acquired, [])
  }

  /**
   * The query as written. Each library call runs only when every earlier
   * one succeeded, and the first failure returns `false` at once. The mode
   * array, output, adapter and factory are released only on the path that
   * returns `true`; every earlier `return false` skips the release block.
   */
  function GetAdapterInfo(screenWidth: uint32, screenHeight: uint32, target: Option<AdapterInfo>, o: Oracle): (r: Run)
    // A null target stops the query before any library call.
    ensures target.None? ==> !r.returned && r.target.None? && r.calls == []
    // Past the null check, factory creation always runs.
    ensures target.Some? ==> r.calls != []
    // The calls issued are a prefix of the fixed order ...
    ensures |r.calls| <= |CallOrder| && r.calls == CallOrder[..|r.calls|]
    // ... each issued only after every earlier one succeeded ...
    ensures forall k :: 0 <= k < |r.calls| - 1 ==> o.Succeeds(r.calls[k])
    // ... and a failed run stops right after the call that failed.
    ensures !r.returned && r.calls != [] ==> !o.Succeeds(r.calls[|r.calls| - 1])
    ensures r.returned <==> target.Some? && forall c :: o.Succeeds(c)
    ensures r.returned ==> r.calls == CallOrder
    // The successful run holds every handle and the mode array.
    ensures r.returned ==> r.acquired == [Factory, Adapter, Output, ModeArray]
    // The release block runs exactly when the query succeeds, in reverse acquisition order.
    ensures r.released != [] <==> r.returned
    ensures r.returned ==> ReleasedInReverse(r)
  {
    if target.None? then Run(false, None, NullTarget, [], [], [])
    else
      var info := target.value;
      if !o.createFactory then
        Stop(FactoryFailed, info, CallOrder[..1], [])
      else if !o.enumAdapter0 then
        Stop(AdapterFailed, info, CallOrder[..2], [Factory])
      else if !o.enumOutput0 then
        Stop(OutputFailed, info, CallOrder[..3], [Factory, Adapter])
      else if !o.probeModeCount then
        Stop(ModeCountFailed, info, CallOrder[..4], [Factory, Adapter, Output])
      else if !o.fillModeList then
        Stop(ModeListFailed, info, CallOrder[..5], [Factory, Adapter, Output, ModeArray])
      else
        var refresh := ScanModes(o.modes, screenWidth, screenHeight, info.Refresh());
        var scanned := info.(num := refresh.numerator, den := refresh.denominator);
        var held := [Factory, Adapter, Output, ModeArray];
        if !o.getAdapterDesc then
          Stop(DescFailed, scanned, CallOrder, held)
        else
          var filled := scanned.(videoMemoryMB := BytesToMegabytes(o.dedicatedVideoMemory));
          Run(true, Some(filled), Completed, CallOrder, held, [ModeArray, Output, Adapter, Factory])
  }

  /** Every exit of the query holds exactly what its successful calls acquired. */
  lemma AcquiredIsHeld(screenWidth: uint32, screenHeight: uint32, target: Option<AdapterInfo>, o: Oracle)
    ensures var r := GetAdapterInfo(screenWidth, screenHeight, target, o);
      r.acquired == Held(r.calls, o)
  {
    HeldAlongCallOrder(o);
  }

  /**
   * The query with scoped release: identical to `GetAdapterInfo` except that
   * every exit releases whatever was acquired, in reverse order.
   */
  function GetAdapterInfoScoped(screenWidth: uint32, screenHeight: uint32, target: Option<AdapterInfo>, o: Oracle): (r: Run)
    ensures NoLeak(r) && ReleasedInReverse(r)
    ensures var w := GetAdapterInfo(screenWidth, screenHeight, target, o);
      r.returned == w.returned && r.target == w.target && r.exit == w.exit &&
      r.calls == w.calls && r.acquired == w.acquired
  {
    var r := GetAdapterInfo(screenWidth, screenHeight, target, o);
    r.(released := Reverse(r.acquired))
  }
}
