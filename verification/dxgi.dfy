/**
 * The parts of the DXGI graphics-infrastructure library that the adapter
 * query touches. The library itself is foreign code: every call is an
 * opaque oracle whose outcome (success or failure) and returned data are
 * inputs to the model.
 */
module Dxgi {

  const MaxUint32: int := 0xFFFF_FFFF
  const MaxUint64: int := 0xFFFF_FFFF_FFFF_FFFF

  /** The C `unsigned int` / `UINT` type. */
  type uint32 = x: int | 0 <= x <= MaxUint32
  /** The C `unsigned long long` / 64-bit `SIZE_T` type. */
  type uint64 = x: int | 0 <= x <= MaxUint64

  /** A `DXGI_RATIONAL` refresh rate. */
  datatype Rational = Rational(numerator: uint32, denominator: uint32)

  /**
   * One `DXGI_MODE_DESC` entry as reported by the output. Only the fields
   * the query reads are kept; format, scan-line ordering and scaling are not.
   */
  datatype DisplayMode = DisplayMode(width: uint32, height: uint32, refreshRate: Rational)

  /** A mode list whose length fits the `UINT` count the library reports. */
  type ModeList = s: seq<DisplayMode> | |s| <= MaxUint32

  /** The library calls the query issues, in the order it issues them. */
  datatype Call =
    | CreateFactory    // CreateDXGIFactory
    | EnumAdapter0     // IDXGIFactory::EnumAdapters(0, ...)
    | EnumOutput0      // IDXGIAdapter::EnumOutputs(0, ...)
    | ProbeModeCount   // GetDisplayModeList(..., &count, NULL)
    | FillModeList     // GetDisplayModeList(..., &count, array)
    | GetAdapterDesc   // IDXGIAdapter::GetDesc

  const CallOrder: seq<Call> :=
    [CreateFactory, EnumAdapter0, EnumOutput0, ProbeModeCount, FillModeList, GetAdapterDesc]

  /** Resources the query acquires and is responsible for releasing. */
  datatype Resource = Factory | Adapter | Output | ModeArray

  /**
   * What the library answers on one run: whether each call succeeds, the
   * modes the filling call writes, and the adapter's dedicated video memory
   * in bytes that `GetDesc` reports.
   */
  datatype Oracle = Oracle(
    createFactory: bool,
    enumAdapter0: bool,
    enumOutput0: bool,
    probeModeCount: bool,
    fillModeList: bool,
    modes: ModeList,
    getAdapterDesc: bool,
    dedicatedVideoMemory: uint64)
  {
    /** Whether the library call `c` succeeds on this run. */
    predicate Succeeds(c: Call) {
      match c
      case CreateFactory => createFactory
      case EnumAdapter0 => enumAdapter0
      case EnumOutput0 => enumOutput0
      case ProbeModeCount => probeModeCount
      case FillModeList => fillModeList
      case GetAdapterDesc => getAdapterDesc
    }

    /** Every call of the query succeeds. */
    predicate AllSucceed() {
      ModesAvailable() && getAdapterDesc
    }

    /** Every call up to and including the mode-list fill succeeds. */
    predicate ModesAvailable() {
      createFactory && enumAdapter0 && enumOutput0 && probeModeCount && fillModeList
    }
  }
}
