# GPUParticles adapter query, modelled in Dafny

GPUParticles is a Direct3D 11 particle demo. `GetAdapterInfo` in
`GPUParticles/renderer.cpp` asks DXGI about the first display adapter and
fills a caller-owned `AdapterInfo` record with
the refresh rate (numerator and denominator) of the display mode that matches
the requested screen resolution and with the adapter's dedicated video memory
in megabytes. This project models that function and proves what it does.

The function has three parts, and the model keeps them apart:

- **A guarded chain of fallible calls.** The steps run in a fixed order:
  the null-pointer check, factory creation, enumeration of adapter 0 and of
  output 0, the mode-count probe, the mode-list fill, and the adapter
  description read. Each step either lets the next one run or returns
  `false`. Every DXGI call is foreign code. The model treats it as an oracle
  (`Dxgi.Oracle`) that says whether the call succeeds and what data it yields:
  the filled mode list and the dedicated-memory byte count.
- **The display-mode matching rule** (`ModeScan`). A linear scan copies the
  refresh rate of every mode whose width and height both equal the request.
  It never breaks, so the last match wins. When no mode matches, the caller's
  refresh fields stay exactly as the caller supplied them.
- **The unit conversion** (`Units`). The byte count becomes megabytes through
  two truncating unsigned divisions by 1024.

A run of the query (`Renderer.Run`) records five things: the boolean
returned, the caller's record afterwards (`None` stands for a null pointer),
which `return` statement ended the run, the DXGI calls issued in order, and
the resources acquired and released in order. Resource tracking is what makes
the release behaviour visible. As written, the release block runs only on the
path that returns `true`, so every earlier `return false` leaks what it holds.
The code says so itself in a TODO comment. This is logged under
"Findings" below, together with a corrected variant.

Two behaviours of the code are worth stating plainly:

- **No default refresh rate.** When no mode matches, the code writes no
  default: the caller's numerator and denominator stay as supplied
  (`NoMatchKeepsCallerRefresh`).
- **Handles released only on success.** The factory, adapter, output and mode
  array are released only on the path that returns `true`; the TODO at
  `GPUParticles/renderer.cpp:29` admits the leak on the other paths
  (`GetAdapterInfo`, `LateFailureLeaks`, and "Findings" below).

Files:

- `wrappers.dfy` defines `Option`, whose `None` stands for a null pointer.
- `seqs.dfy` defines `Reverse`, used for release order.
- `dxgi.dfy` holds the foreign library's types: `uint32`/`uint64`,
  `Rational`, `DisplayMode`, the call and resource names, and the oracle.
- `mode_scan.dfy` holds the matching rule and the scan.
- `units.dfy` holds the bytes-to-megabytes conversion.
- `renderer.dfy` holds `AdapterInfo`, the query as written, and the query
  with scoped release.
- `renderer_properties.dfy` holds the properties relating the query's inputs
  to the caller's record.

## Model

| member | source | states |
|---|---|---|
| Renderer.GetAdapterInfo | GPUParticles/renderer.cpp:16-78 | A null target returns `false` before any DXGI call; a non-null target always reaches factory creation. The calls issued are always a prefix of the fixed order, and each call runs only if every earlier call succeeded. A failed run stops right after the call that failed. The query returns `true` exactly when the target is non-null and every call succeeds. On success the run holds the factory, adapter, output and mode array, and the release block, which runs exactly on that path, releases the mode array, output, adapter and factory in that order. |
| Renderer.AcquiredIsHeld | GPUParticles/renderer.cpp:31-77 | Every exit holds exactly what its successful calls acquired: the factory, adapter and output once their calls succeed, and the mode array once the count probe succeeds (it is allocated at line 48). |
| Renderer.GetAdapterInfoScoped | GPUParticles/renderer.cpp:29-78 | The corrected query, with release on every exit. It leaks nothing on any path, releases in reverse acquisition order, and otherwise agrees with the query as written: same return value, record, exit, calls and acquisitions. |
| ModeScan.ScanModes | GPUParticles/renderer.cpp:55-63 | If no mode matches both dimensions, the result is the entry refresh rate. If index `i` is the highest matching index, the result is the refresh rate of mode `i` (last match wins). |
| ModeScan.LastMatchExists | GPUParticles/renderer.cpp:55-63 | Whenever any mode matches, there is exactly one highest matching index. Together with `ScanModes` this fixes the scan's result for every mode list. |
| ModeScan.ScanModeList | GPUParticles/renderer.cpp:55-63 | The imperative loop over the mode array (modelled as a sequence), which never breaks, computes the same refresh rate as `ScanModes`. So it keeps the entry rate when nothing matches and takes the last match otherwise. |
| ModeScan.ScanConcat | GPUParticles/renderer.cpp:55-63 | Scanning a concatenated list equals scanning the second part starting from the first part's result. The scan's only state is the current refresh rate. |
| ModeScan.NonMatchingModeIsIgnored | GPUParticles/renderer.cpp:57-58 | Inserting a non-matching mode anywhere in the list does not change the scan's result. |
| Units.BytesToMegabytes | GPUParticles/renderer.cpp:70 | The two truncating divisions by 1024 give the same result as one truncating division by 1048576. The result `mb` is the whole number of megabytes in the byte count: `mb * 1048576 <= bytes < mb * 1048576 + 1048576`. It never exceeds the byte count. |
| RendererProperties.EarlyFailureLeavesTargetUntouched | GPUParticles/renderer.cpp:31-53 | A failure at factory creation, adapter or output enumeration, the count probe or the mode-list fill returns `false` and leaves the caller's record exactly as supplied. |
| RendererProperties.SuccessTakesLastMatch | GPUParticles/renderer.cpp:55-63 | On success, when some mode matches, the record's numerator and denominator are those of the highest-index matching mode. |
| RendererProperties.NoMatchKeepsCallerRefresh | GPUParticles/renderer.cpp:55-63 | Whenever the scan runs and no mode matches both dimensions, the record's numerator and denominator keep their entry values. No default rate is written. |
| RendererProperties.OneDimensionMatchIsIgnored | GPUParticles/renderer.cpp:57-58 | Adding a mode that matches the width only, or the height only, anywhere in the mode list changes neither the return value nor the caller's record. |
| RendererProperties.DescFailureAfterScan | GPUParticles/renderer.cpp:55-68 | If only the adapter-description read fails, the query returns `false`. The refresh fields already hold the scan's result, and the video-memory field is unchanged. |
| RendererProperties.SuccessConvertsMemory | GPUParticles/renderer.cpp:70-77 | On success the video-memory field is the byte count divided by 1048576, truncated. It satisfies `mb * 1048576 <= bytes < (mb + 1) * 1048576`, so it never exceeds the byte count. |
| RendererProperties.LastMatchScenario | GPUParticles/renderer.cpp:55-63 | With modes 800x600 at 60/1 and then 800x600 at 59/1, a request for 800x600 yields 59/1. A byte count of 512 MiB yields 512. |
| RendererProperties.LateFailureLeaks | GPUParticles/renderer.cpp:35-68 | As written, any failure after the factory was created returns holding exactly what its successful calls acquired, the factory at least, and releases nothing. |
| RendererProperties.AdapterFailureLeaksFactory | GPUParticles/renderer.cpp:35-37 | Concrete case: when adapter enumeration fails, the factory is acquired and never released. |

## Left out

- `GPUParticles/main.cpp` is Win32 plumbing and is not modelled: window-class registration, window creation, display-settings changes, the message loop and the window procedure.
- The device, swap-chain, render-target, depth-stencil and frame operations (`InitializeRenderer`, `ClearBuffers`, `Present`) are called from `main.cpp`, but their definitions are not part of this model.
- The DXGI/COM calls (`CreateDXGIFactory`, `EnumAdapters`, `EnumOutputs`, `GetDisplayModeList`, `GetDesc`, `Release`) are foreign code. Each is modelled only by its success or failure and the data it returns.
- Only width, height and refresh rate are kept from a display mode. The format, scan-line ordering and scaling are never read by the query.
- Allocation failure of the mode array (`new[]` throwing) is not modelled. C++ exceptions are outside the query's own control flow.
- The count reported by the probe and the count reported by the fill are not tracked separately. The model scans the list the fill returns, whose length fits a `UINT`.
- Dedicated video memory is modelled as a 64-bit `SIZE_T`. A 32-bit build, where `SIZE_T` has 32 bits, is not modelled separately. Its conversion is the same.
- The `Renderer` struct of reference-counted device handles and the `RenderWindow` struct in `GPUParticles/renderer.h` carry no logic. The duplicate `AdapterInfo` declaration in the header has the same layout as the one in `renderer.cpp` and is modelled once.

## Findings

| source | as written | input that shows it | evidently intended | confidence | as-written member | corrected member |
|---|---|---|---|---|---|---|
| GPUParticles/renderer.cpp:35-68 | Every `return false` after `CreateDXGIFactory` succeeds skips the release block. The factory, adapter, output and mode array acquired so far are never released. | Factory creation succeeds and `EnumAdapters(0, ...)` fails: the factory is acquired and never released. | Release every acquired handle on every exit, in reverse acquisition order. The TODO at line 29 admits the leak. | high, since the source admits it; not executed | RendererProperties.LateFailureLeaks | Renderer.GetAdapterInfoScoped |

`Renderer.GetAdapterInfoScoped` agrees with the query as written on the return
value, the caller's record, the exit and the calls issued. Every property
above about the record therefore holds for it unchanged.
