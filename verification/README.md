# mac2mqtt decision rules in Dafny

mac2mqtt bridges a macOS host to an MQTT broker. It publishes readings
(volume, mute, battery, CPU, memory, uptime, disk, public IP, camera and
microphone) under `mac2mqtt/<hostname>/status/...` and obeys commands sent to
`mac2mqtt/<hostname>/command/...`. The program is one Go file,
`mac2mqtt.go`, that mixes I/O with a handful of pure rules. This project
models those rules as immutable datatypes and pure functions, and proves what
they promise:

- **Dispatch** (`dispatch.dfy`): the subscription callback of `listen`. It
  is a pure function from sanitised host name, topic and payload to the list
  of actions the callback performs, in order. The actions are setting a
  volume, an input volume or mute; sleeping the machine or the display;
  locking or waking the display; shutting down; running a shortcut; and
  re-reading and re-publishing a status topic. Each of the nine checks
  compares the whole topic with `mac2mqtt/<host>/command/<name>`, as the
  code does. Volume levels use Go's `strconv.Atoi` and mute uses
  `strconv.ParseBool`.
- **Hostname** (`hostname.dfy`): `getHostname` keeps the text before the
  first `.` and deletes every character outside `[a-zA-Z0-9_-]`.
  `getTopicPrefix` puts `mac2mqtt/` in front of the result.
- **Config** (`config.dfy`): `getConfig` after unmarshalling. An empty
  broker address, port, user or password is fatal. Each zero interval takes
  its default (volume 5, battery 60, cpu 10, memory 10, uptime 60,
  publicip 300, disk 60, media 5).
- **Readers** (`readers.dfy`): `getCommandOutput` drops one trailing
  newline. `getCurrentVolume` and `getMuteStatus` read the sentinel
  `missing value` as -1 and false. `getCurrentInputVolume` has no sentinel.
  `getBatteryChargePercent` takes the leftmost match of `(\d+)%`.
- **Uptime** (`uptime.dfy`): seconds are split into days, hours and minutes
  and printed as `D days, H:MM` or `H:MM`.
- **Cpu** (`cpu.dfy`): the CPU-usage figure from two counter readings. It
  uses uint64 wrap-around subtraction and reports `"0"` when no tick
  elapsed.
- **Strconv** (`strconv.dfy`) and **Results** (`results.dfy`): Go's
  `Atoi`/`Itoa`/`ParseBool`/`FormatBool`, and the Option/Result wrappers
  that stand for Go's error returns and `log.Fatal`.

Details of the code that the model keeps:

- `mute` accepts the twelve `ParseBool` spellings: `1`, `t`, `T`, `TRUE`,
  `true`, `True` and their false counterparts.
- `runshortcut` forwards any payload, the empty one included, unchanged.
- The nine commands are `volume`, `input_volume`, `mute`, `sleep`,
  `displaysleep`, `displaylock`, `displaywake`, `shutdown` and
  `runshortcut`; any other topic is ignored.
- The CPU total is User+Nice+Sys+Idle+Wait; Irq, SoftIrq and Stolen are not
  part of it.
- Both CPU readings are taken inside one call, half a second apart; no
  sample is kept between calls.
- An empty broker address, port, user or password is each fatal.

## Model

| member | source | states |
|---|---|---|
| Dispatch.Handle | mac2mqtt.go:272-370 | the actions the callback performs for one message, in order; Handle itself has no contract, and what it does on each topic is stated by HandleOnOtherTopic and the per-command lemmas below |
| Dispatch.CommandTopicInjective | mac2mqtt.go:274-366 | two of the nine exact-topic checks can match the same topic only if their command names are equal |
| Dispatch.OnlyItsOwnCheck | mac2mqtt.go:274-368 | a command topic equals the topic of none of the other eight checks, so one message triggers at most one branch |
| Dispatch.HandleOnOtherTopic | mac2mqtt.go:272-370 | a topic equal to none of the nine command topics produces no action |
| Dispatch.VolumeCommand | mac2mqtt.go:274-288 | `volume` acts iff Atoi gives a level i with 0 ≤ i ≤ 100; it then sets the volume to i and re-publishes volume and mute, in that order; otherwise nothing happens |
| Dispatch.InputVolumeCommand | mac2mqtt.go:290-304 | `input_volume` uses the same acceptance rule; an accepted level sets the input volume and re-publishes only input_volume |
| Dispatch.PrintedLevelsAccepted | mac2mqtt.go:274-304 | every level 0..100 spelled the way `strconv.Itoa` prints it is accepted by both volume commands as exactly that level |
| Dispatch.VolumeAcceptedExamples | mac2mqtt.go:276-277 | the payloads `50` and `+050` are accepted |
| Dispatch.VolumeOutOfRangeExamples | mac2mqtt.go:276-277 | the payloads `101` and `-1` parse but are outside 0..100 and are rejected |
| Dispatch.VolumeNotANumberExamples | mac2mqtt.go:276-277 | the payloads `abc`, ` 50` and the empty payload are rejected |
| Dispatch.MuteCommand | mac2mqtt.go:306-319 | `mute` acts iff the payload is one of the twelve ParseBool spellings; true spellings set mute on and false spellings set it off, then volume and mute are re-published |
| Dispatch.MutePayloadExamples | mac2mqtt.go:308-309 | `1` and `f` are accepted; `tRUE` and `yes` are rejected |
| Dispatch.SleepCommand | mac2mqtt.go:321-327 | `sleep` puts the machine to sleep, once, iff the payload is `sleep`, and otherwise does nothing |
| Dispatch.DisplaySleepCommand | mac2mqtt.go:329-335 | `displaysleep` sleeps the display, once, iff the payload is `displaysleep`, and otherwise does nothing |
| Dispatch.DisplayWakeCommand | mac2mqtt.go:350-356 | `displaywake` wakes the display, once, iff the payload is `displaywake`, and otherwise does nothing |
| Dispatch.ShutdownCommand | mac2mqtt.go:358-364 | `shutdown` shuts the machine down, once, iff the payload is `shutdown`, and otherwise does nothing |
| Dispatch.DisplayLockCommand | mac2mqtt.go:337-348 | `displaylock` locks for `displaylock`, locks then sleeps the display for `displaylock_sleep`, and ignores any other payload |
| Dispatch.RunShortcutCommand | mac2mqtt.go:366-368 | `runshortcut` forwards every payload, unchanged, as the shortcut name |
| Dispatch.CommandTopicsOfHostsDisjoint | mac2mqtt.go:266-268 | host names without `/` give command topics that coincide only for the same host and the same command |
| Dispatch.OtherHostIgnored | mac2mqtt.go:266-274 | for two different sanitised host names, a command sent to one host does nothing on the other |
| Dispatch.Perform | mac2mqtt.go:173-180 | the actions are carried out in order up to the first failing one, which is carried out and ends the process; the run is fatal iff some action fails, and with no failure every action is carried out |
| Dispatch.FailedSetVolumeSkipsRepublish | mac2mqtt.go:274-288 | when osascript fails to set an accepted volume level, the bridge ends before volume and mute are published again |
| Strconv.Atoi | mac2mqtt.go:276-277 | an accepted payload is an optional sign and at least one ASCII digit, and the value it denotes fits Go's 64-bit int; a negative value needs a leading `-` |
| Strconv.AtoiAccepts | mac2mqtt.go:276-277 | the converse of Atoi's contract: an optional sign and at least one digit whose signed value fits Go's int is accepted, with that magnitude, and is negative iff it starts with `-` and is not zero |
| Strconv.AtoiRejectsOutOfRange | mac2mqtt.go:276-277 | an optional sign and at least one digit whose signed value lies outside Go's 64-bit int is rejected, as Go's range error |
| Strconv.AtoiItoa | mac2mqtt.go:379 | Atoi reads back every int64 exactly as Itoa prints it |
| Strconv.Itoa | mac2mqtt.go:379 | the printed level is non-empty, starts with `-` iff the value is negative, never with `+`, is otherwise decimal digits, and has no leading zero except for 0 itself; AtoiItoa reads it back |
| Strconv.Digits | mac2mqtt.go:379 | Itoa's digits are non-empty, decimal, and have no leading zero except for 0 itself |
| Strconv.DigitsRoundTrip | mac2mqtt.go:379 | the value of a number's printed digits is the number |
| Strconv.AtoiLeadingZero | mac2mqtt.go:276-277 | a zero after the optional sign does not change what Atoi reads (`+050` reads as `+50`, `007` as `07`), and a sign followed by `0` alone reads as 0 |
| Strconv.AtoiExamples | mac2mqtt.go:276 | Atoi on sample payloads: sign and leading zeros accepted; spaces, letters and empty text rejected |
| Strconv.ParseBool | mac2mqtt.go:308-309 | true for exactly `1 t T TRUE true True`, false for exactly `0 f F FALSE false False`, an error for everything else |
| Strconv.FormatBool | mac2mqtt.go:389 | the printed mute state is `true` or `false`, a spelling ParseBool reads as that same state |
| Strconv.ParseFormatBool | mac2mqtt.go:389 | ParseBool reads back what FormatBool prints |
| Hostname.FirstLabel | mac2mqtt.go:107-108 | the result is the prefix of the host name that holds no `.` and ends at the first `.` or at the end |
| Hostname.KeepTopicChars | mac2mqtt.go:110-115 | the result holds only `[a-zA-Z0-9_-]`, is no longer than the input, and holds no character the input lacks |
| Hostname.SanitizeHostname | mac2mqtt.go:107-117 | the sanitised name holds no `.` and no `/`, only `[a-zA-Z0-9_-]`, all taken from the first label |
| Hostname.KeepTopicCharsFixpoint | mac2mqtt.go:110-115 | the filter leaves text unchanged exactly when all of it is `[a-zA-Z0-9_-]` |
| Hostname.KeepTopicCharsAppend | mac2mqtt.go:110-115 | filtering a concatenation is concatenating the filtered parts, so kept characters stay in order |
| Hostname.KeepTopicCharsKeepsAllowed | mac2mqtt.go:110-115 | every allowed character of the input appears in the result |
| Hostname.SanitizeIdempotent | mac2mqtt.go:107-117 | sanitising a sanitised name changes nothing |
| Hostname.SanitizeIgnoresDomain | mac2mqtt.go:107-108 | for `name.domain`, the result is the filtered `name` whatever the domain is |
| Hostname.TopicPrefix | mac2mqtt.go:266-268 | `mac2mqtt/` followed by the sanitised host; it has no contract of its own, and CommandTopicsOfHostsDisjoint and OtherHostIgnored state what routing needs of it |
| Config.DefaultInterval | mac2mqtt.go:70-94 | every default interval is positive |
| Config.GetConfig | mac2mqtt.go:54-96 | fails iff one of mqtt_ip, mqtt_port, mqtt_user, mqtt_password is empty, naming the first empty one in that order; otherwise strings are kept, nonzero intervals are kept, zero intervals become their defaults |
| Config.GetConfigIdempotent | mac2mqtt.go:54-96 | a configuration that passed getConfig passes again unchanged |
| Config.GetConfigIntervalsNonzero | mac2mqtt.go:70-94 | after getConfig no interval is zero, and an interval that was not negative is positive |
| Readers.TrimNewline | mac2mqtt.go:128-129 | exactly one trailing newline is removed when present, otherwise the text is unchanged |
| Readers.CommandText | mac2mqtt.go:120-131 | a failed program is an error; otherwise the text is the output with one trailing newline removed when present |
| Readers.CurrentVolume | mac2mqtt.go:148-160 | `missing value` reads as -1; any other output is a reading iff Atoi accepts it, with Atoi's value |
| Readers.CurrentInputVolume | mac2mqtt.go:162-171 | a reading iff Atoi accepts the trimmed output, with no sentinel |
| Readers.MuteStatus | mac2mqtt.go:134-146 | an error iff the program failed or the output is neither `missing value` nor a ParseBool spelling; true only for a true spelling, false only for a false spelling or `missing value` |
| Readers.VolumeRoundTrip | mac2mqtt.go:148-171 | an int64 printed by Itoa with a newline reads back as itself, for output and input volume |
| Readers.MuteRoundTrip | mac2mqtt.go:134-146 | a mute state printed by FormatBool with a newline reads back as itself |
| Readers.MissingValueOnlyForOutputVolume | mac2mqtt.go:134-171 | `missing value` gives volume -1 and mute false, but is an error for the input volume |
| Readers.BatteryChargePercent | mac2mqtt.go:393-405 | the result is the digits of the leftmost `(\d+)%` match in the trimmed output; it is the no-match error iff no such match exists; a failed program is an error |
| Uptime.Decompose | mac2mqtt.go:491-494 | hours < 24, minutes < 60, and days, hours and minutes account for the uptime to within the current minute |
| Uptime.DecomposeUnique | mac2mqtt.go:491-494 | any split with hours < 24 and minutes < 60 that accounts for the uptime that way is the computed one |
| Uptime.TwoDigits | mac2mqtt.go:498-500 | `%02d` of a minute value is two decimal digits denoting that value |
| Uptime.Human | mac2mqtt.go:496-501 | the `D days, H:MM` / `H:MM` text; it has no contract of its own, and HumanRoundTrip states that the text determines the days, hours and minutes |
| Uptime.UptimeHuman | mac2mqtt.go:491-501 | the human string of an uptime in seconds; UptimeHumanRoundTrip states what it determines |
| Uptime.HumanRoundTrip | mac2mqtt.go:496-501 | the `D days, H:MM` / `H:MM` text determines the days, hours and minutes it was printed from |
| Uptime.ClockOnlyWithoutDays | mac2mqtt.go:496-501 | the human string is a bare `H:MM` clock exactly when there are no whole days |
| Uptime.UptimeHumanRoundTrip | mac2mqtt.go:491-503 | the published human string reads back as the decomposition, and it is a bare `H:MM` clock exactly when the uptime is under one day |
| Uptime.HumanExact | mac2mqtt.go:496-501 | every string the parser accepts is exactly what the `D days, H:MM` / `H:MM` format prints for the result, so the spelling of a published uptime is unique (no `0 days`, no leading zero in days or hours) |
| Uptime.UptimeOf | mac2mqtt.go:479-503 | a failed reading publishes `unknown` and `0`, and `unknown` is published only then; otherwise the human string reads back as the decomposition of the whole seconds and the millisecond string is plain decimal digits with no leading zero (as `%d` prints) that Atoi reads back as the reading |
| Cpu.WrappingSub | mac2mqtt.go:438-439 | Go's uint64 subtraction: the difference reduced modulo 2^64 |
| Cpu.Total | mac2mqtt.go:421 | the uint64 sum of user, nice, sys, idle and wait; it has no contract of its own beyond lying below 2^64, and WrappingSubOfSums and GrowingCountersDeltas state how its deltas behave |
| Cpu.UsageOfDeltas | mac2mqtt.go:441-446 | `"0"` iff no tick elapsed; otherwise the share of elapsed ticks that were not idle |
| Cpu.CpuUsageOf | mac2mqtt.go:412-448 | a failed reading gives `"0"`; for two readings the figure is `"0"` iff the wrapped totals are equal, and otherwise the non-idle share of the wrapping total delta |
| Cpu.UsageBounds | mac2mqtt.go:441-446 | when idle ticks do not exceed elapsed ticks the figure lies in [0, 100]; it is 0 iff no tick elapsed or all were idle, and 100 iff ticks elapsed and none was idle |
| Cpu.IdenticalReadingsReportZero | mac2mqtt.go:438-443 | two identical readings give `"0"`, never a division by zero |
| Cpu.WrappingSubOfSums | mac2mqtt.go:421-438 | when a sum grows by less than 2^64, the uint64 delta of its wrapped values is the true growth, even across a wrap |
| Cpu.GrowingCountersDeltas | mac2mqtt.go:421-439 | for counters that only grow, the wrapping total and idle deltas equal the true differences |
| Cpu.GrowingCountersGiveBusyShare | mac2mqtt.go:420-447 | for counters that only grow, the figure is the share of user, nice, sys and wait ticks among all elapsed ticks (or `"0"` when none elapsed), and it lies in [0, 100] |

## Left out

- The MQTT client is left out, because it is a foreign library doing network
  I/O. This covers client options, connect, subscribe and publish tokens, the
  connect and connection-lost handlers, the `status/alive` presence message
  and the last-will message (mac2mqtt.go:228-264, 372-391). Publications
  after a command appear only as `Republish(topic)` actions.
- Running programs is left out: `exec.Command` with osascript, pmset,
  caffeinate, shutdown and shortcuts (mac2mqtt.go:120-126, 173-226). These
  are side effects on the host. They appear as actions. A failed reader
  run appears as `ExecFailed`. A failed command run ends the process
  through `log.Fatal`; `Perform` models this given which runs succeed. The root/non-root choice inside `commandShutdown`
  is folded into the single `Shutdown` action.
- The gosigar, publicip and go-media-devices-state readers are left out,
  because they are foreign calls. This covers memory, disk, public IP,
  camera and microphone (mac2mqtt.go:455-598). The CPU and uptime readings
  enter the model as parameters.
- Float arithmetic and formatting are left out: memory gigabytes, disk
  percentages, the float multiplication behind the millisecond uptime
  string and every `%.2f` output.
- Reading and unmarshalling mac2mqtt.yaml, `os.Hostname`, and the ticker loop
  in `main` (mac2mqtt.go:42-53, 99-106, 600-670) are left out. They are
  file I/O, an OS call and concurrency.
- Cpu.CpuUsageOf: the figure is the exact fraction it is computed from, and
  `Percent` gives its exact real value. float64 conversion and rounding are
  not modelled, and the result is not formatted with `%.2f`.
- Uptime.Decompose: the input is a natural number of whole seconds. The
  float-to-int truncation of the uptime length is not modelled.
- Uptime.UptimeOf: the reading is whole milliseconds, not gosigar's float
  seconds, so `int(uptime.Length*1000)` and `int(uptime.Length)` are
  taken to be the milliseconds and their whole seconds. A reading above
  Go's int range is not modelled. Uptime is
  never negative, so Go's truncating division and Dafny's division agree.
- Strconv.Atoi: a failed parse is a single `None`. Go's distinction between
  syntax and range errors is not kept, because every caller only tests
  whether an error occurred.
- Payloads and topics are Unicode text here, while Go compares and forwards
  raw bytes (`string(msg.Payload())`, mac2mqtt.go:276-367): a `runshortcut`
  payload that is not valid UTF-8 cannot be written in the model. The
  `log.Println("Incorrect value")` lines for a rejected volume or mute
  payload (mac2mqtt.go:285, 301, 316) are logging and are not modelled; a
  rejected payload yields no action.
- Hostname.SanitizeHostname: characters stand for the Unicode code points
  Go's regexp matches. The host name is taken to be valid
  UTF-8. The `os.Hostname` error is not modelled.
- Config.GetConfig: a negative interval is kept as the code keeps it. Such an
  interval would make `time.NewTicker` panic in `main`, which is outside the
  model.
