# raspberry-status-page: the display normalizers

The service in `src/main.rs` samples a machine's CPU, memory, swap,
temperature, uptime and host name, and serves them as JSON and as a small
dashboard. Two functions in it carry logic of their own; this project
models both and proves what they promise.

- `formate_memory` scales a byte count into a magnitude and a unit label.
  Below 1000 bytes the label is `B` and the count is shown as it is.
  Below 1,000,000 the label is `KB` and the count is divided by 1000.
  Otherwise the label is `MB` and the count is divided by 1,000,000.
  Division truncates. Modelled as the function `Memory.FormatMemory`.
- `formate_time` splits an uptime in seconds into days, hours, minutes and
  seconds. It pushes a segment `"<n> days"`, `"<n> hours"`, … for each
  nonzero component onto a vector and joins the vector with `", "`.
  Modelled as the method `Uptime.FormatTime`, which builds its list of
  segments step by step as the source does. The method is proved equal to
  the function `Uptime.UptimeText`.

Files and modules:

- `wrappers.dfy` (`Wrappers`): an `Option` type.
- `numeric.dfy` (`Numeric`): the `u64` range and the decimal text that
  `format!("{}", n)` prints. It also has the reading of a digit string and
  two facts about Euclidean division.
- `memory.dfy` (`Memory`): the memory scaler.
- `uptime.dfy` (`Uptime`): the uptime formatter. It also has a reader
  (`Pieces`, `ParseSegment`, `ParseUptime`) for the text the formatter
  prints. The source has no reader. This one is the formatter's partner:
  the lemmas use it to show that the text splits back into exactly the
  nonzero components and adds up to the original uptime.

Both source functions take a `u64`. The model uses `nat` with
`requires value < U64_LIMIT`. Every operation is a division or a remainder,
so nothing can overflow. The unit labels stay strings, as in the source.

## Model

| member | source | states |
|---|---|---|
| `Numeric.NatToString` | src/main.rs:58 | `{}` prints at least one decimal digit and no leading zero; the text starts with '0' exactly for 0 and is one digit long exactly below 10 |
| `Numeric.DigitsValueOfNatToString` | src/main.rs:58 | reading the printed digits back gives the number printed |
| `Numeric.NatToStringOfDigitsValue` | src/main.rs:58 | every canonical digit string is what `{}` prints for its value, so printing is a bijection onto canonical strings |
| `Numeric.NatToStringInjective` | src/main.rs:58 | different numbers print differently |
| `Memory.FormatMemory` | src/main.rs:38-47 | label `B` iff value < 1000, `KB` iff 1000 <= value < 1000000, `MB` iff value >= 1000000; with f = 1, 1000 or 1000000 for that label, m * f <= value < (m + 1) * f; m < 1000 below MB; m >= 1 from KB up; m <= value |
| `Memory.FormatMemoryEdges` | src/main.rs:39-44 | 0 and 999 give B unchanged, 1000 gives (1, KB), 999999 gives (999, KB), 1000000 gives (1, MB), the largest `u64` gives (18446744073709, MB) |
| `Memory.MagnitudeIsFloor` | src/main.rs:41-44 | the magnitude is the only number of units that brackets the value, so the division is the floor (truncation) |
| `Memory.FormatMemoryRescale` | src/main.rs:38-47 | converting the shown pair back to bytes and scaling again shows the same pair |
| `Memory.FormatMemoryMonotone` | src/main.rs:38-47 | a larger byte count never gets a smaller unit, and within one unit never a smaller magnitude |
| `Uptime.Decompose` | src/main.rs:50-53 | days*86400 + hours*3600 + minutes*60 + seconds == value, with hours < 24, minutes < 60, seconds < 60 |
| `Uptime.DecomposeTotalSeconds` | src/main.rs:50-53 | the split is the only normalized duration with that total: decomposing the total of a normalized duration gives it back |
| `Uptime.EntriesByField` | src/main.rs:57-68 | the four conditional pushes, days to seconds, build exactly the list of nonzero components in unit order |
| `Uptime.EntriesShape` | src/main.rs:55-68 | one segment per nonzero component and none for a zero one (both directions); each carries its own component; units strictly descending; the segments add up to the duration |
| `Uptime.UptimeText` | src/main.rs:49-71 | the text `formate_time` returns is empty exactly when value == 0; what else it holds is stated by `UptimeTextSegments`, `UptimeTextRoundTrip` and `UptimeTextByField` |
| `Uptime.FormatTime` | src/main.rs:49-71 | the method's result equals `UptimeText(value)`, and it is empty exactly when value == 0 |
| `Uptime.Segment` | src/main.rs:58-67 | a segment `format!("{} <unit>", n)` begins with a digit of the count and is longer than the unit word; `SegmentHasNoComma` and `SegmentRoundTrip` state the rest |
| `Uptime.SegmentHasNoComma` | src/main.rs:58-67 | no printed segment holds a comma, so the separator `", "` cannot occur inside one |
| `Uptime.SegmentRoundTrip` | src/main.rs:57-68 | each printed segment `"<n> <unit>"` reads back as that count and unit |
| `Uptime.RenderByField` | src/main.rs:57-68 | the segments of a duration are what the four conditional pushes add, days first and seconds last, one segment for each nonzero component |
| `Uptime.Join` | src/main.rs:70 | joining no parts gives the empty text; its partner `SplitJoin` cuts a join of comma-free parts back into exactly those parts |
| `Uptime.SplitJoin` | src/main.rs:70 | splitting a `", "`-join of comma-free parts at `", "` gives back exactly the parts |
| `Uptime.UptimeTextSegments` | src/main.rs:55-70 | the pieces between the separators are exactly the printed segments `"<n> <unit>"` of the nonzero components, in order; they read back as those components; their number is the number of nonzero components |
| `Uptime.UptimeTextByField` | src/main.rs:49-71 | the text of a normalized duration is the `", "`-join of the four conditional pushes |
| `Uptime.UptimeTextRoundTrip` | src/main.rs:49-71 | reading the text back gives the uptime it was printed from |
| `Uptime.UptimeTextInjective` | src/main.rs:49-71 | different uptimes never print the same text |
| `Uptime.UptimeTextOfMinutesAndSeconds` | src/main.rs:49-71 | under an hour, with both nonzero, the text is the minutes segment, ", ", then the seconds segment |
| `Uptime.UptimeTextWithoutHours` | src/main.rs:49-71 | with zero hours the text is the days, minutes and seconds segments joined by ", ", with no gap left for the hours |
| `Uptime.UptimeTextOfWholeHours` | src/main.rs:49-71 | a whole number of hours under a day prints as that single segment |
| `Uptime.UptimeTextOfZero` | src/main.rs:49-71 | 0 prints as "" |
| `Uptime.UptimeTextOf65` | src/main.rs:49-71 | 65 prints as "1 minutes, 5 seconds" |
| `Uptime.UptimeTextOf86461` | src/main.rs:49-71 | 86461 prints as "1 days, 1 minutes, 1 seconds" |
| `Uptime.UptimeTextOf3600` | src/main.rs:49-71 | 3600 prints as "1 hours" |

## Left out

- `read_cpu_temperature` (src/main.rs:28-36): it reads a file under `/sys` and parses an `f32`. That is OS access and floating point.
- `pi_data` (src/main.rs:140-167): it calls the foreign `sysinfo` crate for CPU usage, memory, swap, uptime and host name, and the CPU averaging happens inside that crate. Its only local policy is `unwrap_or(0.0)` on the temperature, a wrapper over I/O and a float. Its four calls of `formate_memory` and one of `formate_time` are covered by the models of those two functions.
- `index` (src/main.rs:73-138): a static HTML and JavaScript page. This is UI.
- `favicon` and `rocket` (src/main.rs:169-179): asynchronous file serving and route mounting in the Rocket framework.
- The `RaspberryPiData` record and its JSON serialization (src/main.rs:12-26): a derived serde implementation, a library call.
- `Vec::join` and `format!` are library code. They are modelled by `Uptime.Join` and `Numeric.NatToString` as Rust documents them, not from their source.
- No separate temperature converter or CPU averager exists in `src/main.rs`: the conversion is inside `read_cpu_temperature` and the averaging is inside `sysinfo`, so neither is modelled.
- The unit label is a `String` in the code, and the model keeps "B", "KB" and "MB".
