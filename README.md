# pi_rack_status CPU tracker — a Dafny model

`oled_status.py` drives a 128x32 SSD1306 panel on a Raspberry Pi. It shows the
hostname, the IP address and a status line. Along the bottom it draws a CPU
load bar with a tick at the recent peak. This project models the part of that
program that makes decisions:

- `clamp`, which cuts a display line to 21 characters (module `Text`);
- the counter arithmetic of `read_cpu_times` and the percentage of
  `cpu_percent` (module `CpuStat`);
- the `deque(maxlen=10)` history and its `max` (module `History`);
- the mapping of the current and peak percentage to bar columns, and the
  bar's lines (module `Display`);
- one iteration of the `while True` body, as a step method on a tracker object
  that holds the last snapshot and the history (module `Monitor`).

Percentages are `real`, so the arithmetic is exact. `int(...)` of a float is
truncation toward zero (`Display.Truncate`). The ghost field
`CpuTracker.samples` holds every percentage computed so far. The tracker's
invariant says that the history is the last `min(n, 10)` of them, in order,
and that each lies in [0, 100].

`read_cpu_times` indexes fields 3 and 4 without a guard (oled_status.py:44),
and the program catches only `KeyboardInterrupt` (oled_status.py:111-114). A
counter line with fewer than five fields therefore ends the program with an
IndexError. `CpuStat.CpuTimes` returns `None` for that case.

## Model

| member | source | states |
|---|---|---|
| `Text.Clamp` | oled_status.py:17 | the result is the prefix of `s` of length `min(\|s\|, 21)`; a string of 21 characters or fewer comes back unchanged |
| `Text.ClampIdempotent` | oled_status.py:17 | clamping twice is the same as clamping once |
| `CpuStat.CpuTimes` | oled_status.py:43-46 | fails exactly when fewer than five fields are present; otherwise idle is field 3 plus field 4 and total is the sum of all fields, with `CpuStat.Sum` as the reference definition of Python's `sum` |
| `CpuStat.IdleWithinTotal` | oled_status.py:44-45 | with non-negative fields, 0 ≤ idle ≤ total |
| `CpuStat.AdvancingCounters` | oled_status.py:44-45 | between two readings in which no counter went backwards, 0 ≤ Δidle ≤ Δtotal |
| `CpuStat.CpuPercent` | oled_status.py:48-52 | the result is always in [0, 100]; it is 0 when Δtotal ≤ 0; it is exactly 100·(Δtotal−Δidle)/Δtotal when 0 ≤ Δidle ≤ Δtotal; it is clamped to 0 when Δidle > Δtotal and to 100 when Δidle < 0 |
| `CpuStat.CpuPercentOfReadings` | oled_status.py:43-52 | on two readings in which no counter went backwards, the percentage is the busy share of the interval (0 when no time elapsed), so the clamp never cuts in |
| `History.Append` | oled_status.py:69-78 | appending to a deque of at most 10 keeps 1 to 10 elements with the new sample last; below capacity nothing is dropped; at capacity the oldest is dropped and the rest keep their order |
| `History.AppendWindow` | oled_status.py:69-78 | appending to the last-10 window of a sample stream gives the last-10 window of the extended stream |
| `History.AppendWithin` | oled_status.py:78 | appending an in-range value to an in-range history keeps every element in range |
| `History.MaxOf` | oled_status.py:79 | `max(hist)` is an element of the history and bounds every element |
| `History.PeakIsRollingMax` | oled_status.py:78-79 | the peak bounds each of the last 10 samples and equals one of them |
| `Display.Truncate` | oled_status.py:100 | `int()` of a float truncates toward zero |
| `Display.BarColumn` | oled_status.py:100-105 | a percentage in [0, 100] maps to a column in [0, 127]; 100 % maps to column 127 |
| `Display.BarShownIff` | oled_status.py:100-102 | the load line is drawn exactly when the load is at least 100/127 % |
| `Display.BarFor` | oled_status.py:100-105 | when 0 ≤ cur ≤ peak ≤ 100, then 0 ≤ x_cur ≤ x_peak ≤ 127 |
| `Display.BarLines` | oled_status.py:99-106 | the load line from column 0 to x_cur on row 31 appears only when x_cur > 0; the peak tick on rows 29–31 always appears; with columns on the panel every line lies on the 128x32 panel |
| `Monitor.CpuTracker.constructor` | oled_status.py:63-69 | seeding keeps the second snapshot and starts the history with the one percentage computed from the two snapshots |
| `Monitor.CpuTracker.Step` | oled_status.py:75-106 | the kept snapshot becomes the new one, so only the latest pair is retained; the percentage is measured against the previous snapshot; the history is the old one with the percentage appended, which is the last min(n, 10) samples; the peak is the history's maximum, so peak ≥ cur; 0 ≤ x_cur ≤ x_peak ≤ 127; the lines drawn are the load line when x_cur > 0 and always the peak tick; the tracker invariant is kept |

## Left out

- Display I/O: the I2C and SSD1306 set-up, `dev.display`, and the PIL image and text drawing. These are foreign library calls. The bar is modelled as the list of lines handed to the drawing call (`Display.BarLines`), not as pixels.
- Text layout of the first three lines: the right-justification through `textlength` and the composition of the "IP: " and "Status: " lines. Only `clamp` itself is modelled.
- `hostname()` and `ip_addr()`, because they are socket calls.
- `cpu_temp_c()` and its `.1f` formatting, because they are a file read and float formatting.
- The file read of `/proc/stat` and the `split()`/`int()` parsing in `read_cpu_times`. A `ValueError` from `int()` on a non-numeric field is therefore not modelled. `CpuStat.CpuTimes` starts from the parsed list of integers.
- `time.sleep` and the unbounded `while True` loop. One iteration is `CpuTracker.Step`. Repeated iterations are captured by the invariant that `Step` keeps.
- `CpuTracker.Step`: takes the new `(idle, total)` pair directly, so the IndexError path of `read_cpu_times` is shown only in `CpuStat.CpuTimes`.
- `CpuStat.CpuPercent`: does not model IEEE double rounding, because percentages are exact reals.
- `Display.BarColumn`: columns are computed from exact reals; with doubles a value right at a column boundary can land one column lower.
- `Display.BarShownIff`: the threshold of 100/127 % holds for exact reals; with doubles it can be off at the boundary.
