# Raspberry Pi OLED info display — a Dafny model of its display loop

The program shows one of four pages on a 128×64 OLED display: current
metrics (CPU load and temperature, memory), time since boot, the clock, and
the IP address. A single push button, wired with a pull-up, moves to the
next page when it is released. Each loop iteration samples the button,
redraws the current page and sleeps 0.1 s; the metrics page also blocks
0.1 s measuring CPU load, so the button is sampled at most about ten times
a second, and about five times a second on that page. The loop leaves
through its exception handler, releasing the GPIO pins, when a page raises.

This project models that loop and the arithmetic its pages do:

- `pages.dfy` (module `Pages`): the pin level, the release-edge test, the
  cyclic page advance, and the loop state (page, previous level) as values,
  with the state reached after any sequence of samples.
- `uptime.dfy` (module `Uptime`): the split of the seconds since boot into
  days, hours, minutes and seconds. It is stated twice. The first statement
  is integer division on whole seconds. The second is the program's own
  float computation on `real`: division by 60, 60 and 24, floored float
  remainder, and truncating `int`. A lemma proves the two agree for every
  non-negative uptime.
- `layout.dfy` (module `Layout`): the approximate centring formula
  `width/2 − len(text)·w/2` with a fixed glyph width per font, the display
  size and the four page headers.
- `renderers.dfy` (module `Renderers`): each page renderer as a function of
  the system values it reads. It returns the frame it would show or the
  exception it raises. A dispatch function picks the renderer by page.
- `runloop.dfy` (module `RunLoop`): `Execute`, the loop as a function of
  its per-iteration inputs (pin sample plus system values). It also holds
  the class `DisplayLoop`, whose fields `page` and `prevLevel` are the
  program's global state. Its `Step` and `Run` methods update those fields
  iteration by iteration and are proved to agree with `Execute`.

A missing reading does not show a placeholder. With no temperature sensors
at all, `cpuTemp` is printed unassigned (main.py:93-96, 109) and the metrics
page raises; with sensors but no `cpu_thermal` entry, or an empty reading
list for it, the lookup at main.py:94 raises. With no address,
`getIPAddress` returns `None` (main.py:64-65) and `len(None)` raises
(main.py:192). All of these are modelled as `Fault`s that end the run.

## Model

| member | source | states |
|---|---|---|
| `Pages.NextPage` | main.py:203-212 | for a page in 0..3 the advance gives (page + 1) mod 4, always a different page in 0..3; any other page is left unchanged (the 'Error!' branch) |
| `Pages.Next` | main.py:199-214 | one iteration's state update: the new previous level is the sample just read, whether or not the page advanced; from a page in 0..3 the page changes if and only if the previous sample was 0 and the current one is 1, and then to (page + 1) mod 4 |
| `Pages.Activations` | main.py:202 | the activation of iteration i is exactly "sample i−1 (or the stored previous level for i = 0) is 0 and sample i is 1" |
| `Pages.ReleasesAreActivations` | main.py:202 | the number of release edges counted over a sample sequence equals the number of activation events in it |
| `Pages.FinalCountsReleases` | main.py:199-214 | after any sample sequence the page is (start page + number of 0→1 edges) mod 4, it stays in 0..3, and the previous level is the last sample |
| `Pages.PageAlwaysValid` | main.py:82-85 | from the start state (page 0, previous level 1) the page is in 0..3 after any samples, so the 'Error!' branch and an unmatched dispatch are unreachable |
| `Pages.FourAdvancesIdentity` | main.py:203-210 | four advances return to the starting page |
| `Pages.SteadyLevelNeverAdvances` | main.py:202 | a constant level (all 0, or all 1 after a stored 1) produces no activation and no advance |
| `Pages.PressReleaseScenario` | main.py:199-214 | from the start state, samples [1,1,0,0,1] activate only on the last sample and end on page 1; two such cycles end on page 2 |
| `Uptime.Decompose` | main.py:131-137 | hours < 24, minutes and seconds < 60, and days·86400 + hours·3600 + minutes·60 + seconds equals the seconds given |
| `Uptime.DecomposeInverse` | main.py:131-137 | every normal duration is the decomposition of its own total, so the split is unique |
| `Uptime.TruncatedRemainder` | main.py:135-137 | for a non-negative float y and a whole divisor m, `int(y % m)` with Python's floored float remainder is floor(y) mod m |
| `Uptime.UptimePartsExact` | main.py:130-137 | for a non-negative float uptime, the float divisions, float remainders and `int` truncations give exactly the integer decomposition of the whole seconds |
| `Uptime.UptimeExample` | main.py:131-137 | 93725 seconds are 1 day, 2 hours, 2 minutes and 5 seconds, by both computations |
| `Layout.CentredX` | main.py:116 | the centred offset leaves equal margins left and right of the assumed text span, and is non-negative exactly when the span fits the width |
| `Layout.HeaderOffsets` | main.py:114-191 | on the 128-pixel display the four headers start at 4, 11.5, 16 and 24 |
| `Layout.ValueOffsets` | main.py:169-170 | a value-font text starts on screen exactly when it has at most 12 characters; a 10-character date starts at 14, an 11-character time at 9 |
| `Renderers.RenderMetrics` | main.py:90-123 | the metrics page is shown exactly when a `cpu_thermal` reading exists, and raises otherwise; it then shows that first reading under a header at 4; the fault is the unbound temperature exactly when there are no sensors at all, the missing key exactly when sensors exist but none is `cpu_thermal`, and the index error when `cpu_thermal` has no reading |
| `Renderers.RenderUptime` | main.py:127-151 | the uptime page always shows, header at 11.5, and for a non-negative uptime its four numbers are in range and add up to the whole seconds since boot |
| `Renderers.RenderClock` | main.py:155-171 | the clock page always shows the date and time strings it read, header at 16, each string at the centred offset for its length in the value font (a 10-character date at 14, an 11-character time at 9) |
| `Renderers.RenderAddress` | main.py:176-193 | the address page raises exactly when the lookup gave no address; otherwise it shows that address, header at 24, at the centred offset 64 − len·10/2 for its length, which is on screen exactly when it has at most 12 characters |
| `Renderers.Render` | main.py:216-223 | a page in 0..3 runs exactly one renderer, and what it shows belongs to that page; only the metrics page without a readable temperature and the address page without an address raise |
| `RunLoop.Execute` | main.py:196-231 | a run shows at most one frame per iteration, and a crashed run stops before its inputs run out |
| `RunLoop.EveryIterationRenders` | main.py:199-223 | from a page in 0..3, a run without a crash shows exactly one frame per iteration; frame i is what the renderer of the page reached after sample i drew from iteration i's readings, so an advance takes effect in the same iteration and no iteration raised; the run ends in the state the samples lead to |
| `RunLoop.CrashIsRendererFault` | main.py:198-231 | each frame before a crash is what its iteration's renderer drew from that iteration's readings; the crash happens in the iteration right after them, on the page that iteration's sample led to, and is the fault that page's renderer raised |
| `RunLoop.CrashIgnoresRest` | main.py:229-231 | once a run crashes, no later input changes its result: no further sample is processed |
| `RunLoop.MissingAddressEndsRun` | main.py:176-192 | three press-and-release cycles from the start reach the address page; with no address the run crashes there after five frames, whatever follows |
| `RunLoop.DisplayLoop.constructor` | main.py:82-85 | the loop starts on page 0 with the previous level idle (1) |
| `RunLoop.DisplayLoop.Step` | main.py:200-223 | one iteration changes the state exactly as `Pages.Next` and returns what `Renderers.Render` gives for the new page |
| `RunLoop.DisplayLoop.Run` | main.py:196-231 | running the loop over the inputs gives the frames, exit and final state of `Execute`; the pins are released exactly when a renderer raised |

## Left out

- GPIO setup, pin reads and pin release are hardware I/O. The pin sample is an input of each iteration; the release is the `cleanedUp` result of `Run`.
- The display driver and image library are foreign code: opening the device, clearing, drawing and flushing the image. A frame holds a page's centred offsets and the values the model carries: the temperature (main.py:120), the four uptime numbers (main.py:147-150), the date, time and address strings. The label texts, the fixed positions, and the CPU load and memory values (main.py:117-119, 121-122) are not part of it.
- The CPU load and memory readings (main.py:98-104) are OS reads with float formatting. They cannot fail and do not affect control flow, so the metrics frame does not carry them.
- The temperature is shown as read. Its rounding to whole degrees (main.py:94) is float formatting.
- Reading the uptime file is I/O. The uptime is an input real. A missing or malformed file is not modelled.
- Uptime arithmetic uses exact reals, not IEEE doubles. Rounding in the float divisions is not modelled.
- The date and time are inputs already formatted. The `strftime` formatting (main.py:157-158) is library code.
- The address lookup (main.py:58-65) is network I/O. Its result is an optional input.
- Terminal output and clearing (main.py:36-40 and the `print` calls) only write to the console.
- Signal handlers, `atexit`, `sys.exit`, keyboard interrupt and the `finally` block (main.py:43-54, 227-234) are process lifecycle. The model's run ends only when its inputs run out or a renderer raises. A second pin release via `atexit` depends on the GPIO library.
- The 0.1 s sleep (main.py:224) is timing only.
- The global `buttonState` is not a separate field. After every iteration it equals `prevLevel`, and it is read nowhere else.
