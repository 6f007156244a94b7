# Remind2Rest reminder scheduling, modelled in Dafny

Remind2Rest nags its user to rest their eyes and check their posture. A
configuration gives a repeating window of `global_interval` minutes and, for
each of the two reminder modules `eye_relax` and `posture`, an `enabled` flag,
a list of minute offsets inside the window, and the parameters of the
notification. The repository holds three schedulers, and this project models
all three:

- **`Remind2Rest.py`.** The daemon validates and loads the configuration. It
  runs a job every second that publishes a countdown to the nearest reminder
  and triggers each module whose offset is the current minute, in second 0.
  Repeats are suppressed with a single remembered trigger key. A control
  socket answers `STOP`, `RELOAD` and status queries.
- **`src/config_manager.py`.** The configuration store has a stricter
  validator and a built-in default. Loading falls back to the default, and
  saving validates before it writes.
- **`src/reminder_app.py`.** A simpler per-second scheduler with the same
  firing rule. It keeps no memory of earlier calls and publishes no status.
- **`ReminderApp.py`.** A timestamp scheduler. It keeps one next-fire time per
  reminder and is controlled through the first 8 bytes of two memory-mapped
  files: a command buffer and a state buffer.

Each file of the model, and what it holds:

- **`py_values.dfy` (`PyValues`).** The Python semantics the code relies on:
  - parsed JSON values;
  - `in` and `[key]` on them;
  - floor modulo;
  - `str(n)`, `int(s)` and `f"{n:02d}"`;
  - byte strings.
- **`reminders.dfy` (`Reminders`).** Shared by the tick schedulers:
  - a typed view of a configuration document;
  - the elapsed-minute and countdown arithmetic;
  - the candidates a tick visits, in order;
  - the firing rule.
- **`key_checks.dfy` (`KeyChecks`).** The chain of required-key checks that
  both validators start with, and a declarative reading of it: an ordered
  list of checks, of which the first failing one is reported.
- **`remind2rest_config.dfy`, `remind2rest_schedule.dfy`,
  `remind2rest_daemon.dfy`.** `Remind2Rest.py`:
  - loading;
  - choosing and formatting the published status;
  - deduplicated triggering;
  - the daemon as a class `Daemon`, whose tick, connection handler and
    command loop are proved against the specification functions `TickSpec`,
    `HandleSpec` and `ServeSpec`.
- **`config_manager.dfy` (`ConfigManager`).** `src/config_manager.py`.
- **`simple_reminder.dfy` (`SimpleReminder`).** `src/reminder_app.py`.
- **`reminder_app.dfy` (`ReminderApp`).** `ReminderApp.py`:
  - the files as `array<byte>`, padded, cleared and overwritten in place;
  - the loop as a class `App`, proved against `IterateSpec` and `RunSpec`.

How the environment enters the model:

- **Clock.** The wall clock is the parameters `hour`, `minute` and `second`
  for the two minute-based schedulers, and an integer `now` in seconds for
  `ReminderApp.py`.
- **Files.** The configuration file is a value: missing, malformed, or a
  parsed document.
- **Dispatch.** Notifications are recorded in order as `Dispatch` values or
  `Notification` values.
- **Concurrency.** The per-second job and the accept loop are one sequence of
  events, taken in order.
- **Exceptions.** An exception is a `Raise`/`Fail` value. Where the code
  catches one, the model shows its effect: a tick cut short, or a reload that
  leaves the job removed.

## Model

| member | source | states |
|---|---|---|
| PyValues.PyIn | Remind2Rest.py:58-66 | `key in container` raises exactly for a container that is not a dict, list or string; on a dict it tests the keys |
| PyValues.PyIndex | Remind2Rest.py:62-66 | `container[key]` succeeds exactly on a dict holding the key, and then yields that entry |
| PyValues.PyMod | Remind2Rest.py:104-106 | Python's `%` lies in `[0, b)` for a positive divisor and in `(b, 0]` for a negative one, and `a == b * (a // b) + a % b` with `//` rounding towards negative infinity |
| PyValues.NatToString | Remind2Rest.py:142 | `str(n)` is a non-empty string of decimal digits |
| PyValues.Pad2 | Remind2Rest.py:131-132 | `f"{n:02d}"` of a non-negative number has at least two characters, all digits |
| PyValues.ParseNatToString | Remind2Rest.py:142 | `int(str(n)) == n` |
| PyValues.ParsePad2 | Remind2Rest.py:75 | `int(f"{n:02d}") == n`: zero padding is undone by parsing |
| PyValues.Ascii | ReminderApp.py:12-15 | a byte literal has one byte per character |
| PyValues.Zeros | ReminderApp.py:31 | `b'\0' * n` is n zero bytes |
| Reminders.IntsOf | Remind2Rest.py:115 | a list reads as integers iff every element is an integer; it then keeps its length, and each element is the integer read |
| Reminders.ModuleOf | Remind2Rest.py:114-115 | a module dict as the tick reads it: a boolean `enabled`, the list of integer `reminders` only when enabled, and the whole dict as the dispatcher's settings; and every dict with a boolean `enabled` and, when it is true, a `reminders` list of integers does read |
| Reminders.Typed | Remind2Rest.py:84-125 | a document reads iff it is a dict with an integer `global_interval` and both module dicts read; the typed view then carries that interval and, for each module, exactly what `ModuleOf` reads |
| Reminders.ElapsedMinute | Remind2Rest.py:104-106 | the elapsed minute `(h*60+m) % I` lies in `[0, I)` for a positive interval |
| Reminders.SecondsUntil | Remind2Rest.py:116-118 | a countdown lies in `[-s, (I-1)*60 - s]` for a positive interval, and is at most `-s` for a negative one |
| Reminders.CountdownNegativeOnlyInTargetMinute | Remind2Rest.py:116-119 | a countdown is negative iff the offset is the current minute of the window and the second is past 0 |
| Reminders.CandsOf | Remind2Rest.py:115-118 | a module contributes one candidate per list entry |
| Reminders.CandidatesSplit | Remind2Rest.py:113-115 | a tick visits the `eye_relax` candidates, then the `posture` ones |
| Reminders.Candidates | Remind2Rest.py:113-118 | a tick visits one candidate per offset of each enabled module and none for a disabled one |
| Reminders.Fires | Remind2Rest.py:124-125 | a tick makes at most one trigger call per candidate it visits |
| Reminders.CandidatesFromEnabledModules | Remind2Rest.py:113-118 | every candidate belongs to an enabled module, carries one of its offsets and the countdown to it |
| Reminders.FiresAppend | Remind2Rest.py:113-125 | the firings of two runs of candidates are the firings of each, concatenated |
| Reminders.Repeat | Remind2Rest.py:115 | `n` copies of one value |
| Reminders.CountOfPositive | Remind2Rest.py:115 | an offset occurs in a list iff its count there is positive |
| Reminders.FiresOfModule | Remind2Rest.py:115-125 | one module fires once per list entry equal to the elapsed minute, and only in second 0 |
| Reminders.TickTriggers | Remind2Rest.py:113-125 | a tick triggers `eye_relax` once per matching offset and then `posture` likewise; duplicates trigger again, and disabled modules never trigger |
| Reminders.ModuleFiresIff | Remind2Rest.py:114-125 | a module is triggered in a tick iff it is enabled, one of its offsets is the elapsed minute, and the second is 0 |
| KeyChecks.RequireKey | Remind2Rest.py:58-59 | `if key not in c: raise ValueError(msg)` passes iff the key is in; on a dict the failure is that ValueError |
| KeyChecks.RequireModule | Remind2Rest.py:61-66 | one module passes iff it is present in the dict and has both `enabled` and `reminders` |
| KeyChecks.ValidateRequired | Remind2Rest.py:57-66 | `validate_config` accepts iff the document is a dict with `global_interval` and, for each module, `enabled` and `reminders`; a failure is a ValueError or a TypeError |
| KeyChecks.FirstFailing | Remind2Rest.py:57-66 | the index found is the first check that fails, and nothing is found iff all checks hold |
| KeyChecks.FirstFailingAt | Remind2Rest.py:57-66 | a failing check with every earlier check holding is the one reported |
| KeyChecks.RequiredReportsFirstMissing | Remind2Rest.py:57-66 | the checks run in order, and the ValueError raised is that of the first missing key |
| KeyChecks.PostureReportsFirstMissing | Remind2Rest.py:57-66 | once the interval and the `eye_relax` keys are present, the first missing `posture` key is the one reported |
| Remind2RestConfig.LoadConfig | Remind2Rest.py:42-54 | `load_config` returns None exactly for a missing file, malformed JSON or a failed key check; otherwise it returns the parsed document unchanged, or lets a TypeError escape |
| Remind2RestConfig.TypedIsValid | Remind2Rest.py:57-66 | a document the tick can read passes validation iff each module also has a `reminders` key |
| ConfigManager.ValidateConfig | src/config_manager.py:29-49 | accepts iff the required keys are present and also `eye_relax.flash_frequency`, `eye_relax.relax_duration` and `posture.wait_duration`; types and ranges are never checked |
| ConfigManager.StrictReportsFirstMissing | src/config_manager.py:29-49 | the strict checks run in order, and the ValueError raised is that of the first missing key |
| ConfigManager.DefaultConfig | src/config_manager.py:51-65 | the default passes validation and reads as interval 60, eye relax at [20, 40], posture at [30], both enabled |
| ConfigManager.DefaultOffsetsInsideWindow | src/config_manager.py:51-65 | every default offset lies inside the default window |
| ConfigManager.LoadConfig | src/config_manager.py:9-17 | never None: a missing, malformed or invalid file gives the default; a valid document is returned unchanged; only a TypeError escapes |
| ConfigManager.SaveConfig | src/config_manager.py:19-27 | True and the document written iff it is valid; False with the file untouched otherwise |
| ConfigManager.SaveThenLoad | src/config_manager.py:9-27 | saving a valid configuration and loading it back yields that configuration |
| ConfigManager.LoadedIsRequiredValid | src/config_manager.py:9-17 | whatever is loaded passes the lenient validator of Remind2Rest.py as well |
| Remind2RestSchedule.NearestOf | Remind2Rest.py:109-122 | the candidate chosen has a non-negative countdown and is one of those visited |
| Remind2RestSchedule.NearestIsFirstMinimum | Remind2Rest.py:109-122 | nothing is chosen iff every countdown is negative; otherwise the choice is the first candidate with the least non-negative countdown (ties go to the earlier) |
| Remind2RestSchedule.MMSS | Remind2Rest.py:127-131 | the `MM:SS` text is at least five characters, all digits but for its colon |
| Remind2RestSchedule.StatusOf | Remind2Rest.py:127-133 | the published status says running, names the module of the chosen candidate, gives its countdown as `MM:SS` and the interval as two digits |
| Remind2RestSchedule.SplitAtColon | Remind2Rest.py:75 | splitting `a + ":" + b` at the colon gives back `a` and `b` |
| Remind2RestSchedule.MMSSReadsBack | Remind2Rest.py:127-131 | the `MM:SS` text parses back to `t / 60` minutes and `t % 60` seconds, which is the countdown; its minutes are what `update_status` logs |
| Remind2RestSchedule.StatusLog | Remind2Rest.py:71-78 | a log line is written iff no status was published yet or the reminder named changes, and it gives the minutes parsed from the status text |
| Remind2RestSchedule.StatusLogOfTick | Remind2Rest.py:71-78 | for a status a tick publishes, the minutes logged are the whole minutes of its countdown, and a line is logged iff the module named differs from the previous status |
| Remind2RestSchedule.TriggerOne | Remind2Rest.py:139-161 | a call whose key is the remembered one changes nothing; any other call remembers its key and dispatches `eye_relax` with its flash frequency and relax duration, `posture` with its wait duration, nothing for another name, or raises for a missing parameter |
| Remind2RestSchedule.TriggerTwiceIsOnce | Remind2Rest.py:144-151 | two identical calls in a row dispatch at most once |
| Remind2RestSchedule.AbortEndsTick | Remind2Rest.py:113-125 | after a trigger call raises, the rest of the tick's calls have no effect |
| Remind2RestSchedule.TriggerAll | Remind2Rest.py:113-125 | the tick's trigger calls in order dispatch at most once each, and any call leaves a remembered key |
| Remind2RestSchedule.RepeatedSingleModuleTickIsIdle | Remind2Rest.py:139-151 | re-running the calls of a tick that fired one module dispatches nothing more |
| Remind2RestSchedule.RememberedAfter | Remind2Rest.py:151 | after calls for one module, its key is the one remembered |
| Remind2RestSchedule.IdleWhenRemembered | Remind2Rest.py:144-149 | calls for the remembered module and minute change nothing |
| Remind2RestSchedule.EyeRelaxDispatchedOnce | Remind2Rest.py:139-156 | calls all for `eye_relax`, from a different remembered key, dispatch exactly one `eye_relax` call with its flash frequency and relax duration |
| Remind2RestSchedule.RepeatedTwoModuleTickRedispatches | Remind2Rest.py:139-161 | with a single remembered key, re-running a tick that fired both modules dispatches both again |
| Remind2RestDaemon.ScheduleSpec | Remind2Rest.py:82-97 | a job is installed iff the document reads as typed values, the interval is not 0 and some enabled module has an offset; the job then runs over that document |
| Remind2RestDaemon.ScheduledJobHasCandidates | Remind2Rest.py:90-97 | an installed job always has a candidate, just as the initial `min` did not raise |
| Remind2RestDaemon.TickSpec | Remind2Rest.py:102-134 | a tick that changes the status publishes a running status with the interval padded to two digits |
| Remind2RestDaemon.TickKeepsConfig | Remind2Rest.py:102-134 | a tick leaves the configuration, the job and the loop flag alone, and only appends to the dispatched calls |
| Remind2RestDaemon.TriggerAllExtends | Remind2Rest.py:124-125 | trigger calls only append to the dispatched calls |
| Remind2RestDaemon.PublishedCountdownBounded | Remind2Rest.py:104-122 | for a positive interval `I`, a published countdown lies in `[0, I*60)` and names an enabled module with an offset it counts down to |
| Remind2RestDaemon.TieGoesToEyeRelax | Remind2Rest.py:113-122 | when `posture` is published, every non-negative `eye_relax` countdown of the same tick is strictly longer |
| Remind2RestDaemon.EyesComeFirst | Remind2Rest.py:113-115 | the `eye_relax` candidates open the list a tick visits, in list order |
| Remind2RestDaemon.ZeroCountdownAtOffset | Remind2Rest.py:116-122 | in second 0 of an `eye_relax` offset's minute, the published countdown is 0 and names `eye_relax` |
| Remind2RestDaemon.EyeTickRemembers | Remind2Rest.py:102-125 | with only `eye_relax` enabled and a 60-minute window, a tick in second 0 of a listed minute remembers `eye_relax_<minute>`, dispatches nothing when that key was remembered and exactly one call otherwise |
| Remind2RestDaemon.HourlyRepeatSuppressed | Remind2Rest.py:142-149 | the key holds no hour: with `eye_relax` the only enabled module and a 60-minute window, a tick at `h1:minute:00` dispatches one call and the next tick, at `h2:minute:00` of any hour with no other call in between, dispatches nothing |
| Remind2RestDaemon.HandleSpec | Remind2Rest.py:197-211 | only a payload other than STOP and RELOAD is answered, with the current status; only STOP stops the loop and it changes nothing else; only RELOAD can change the configuration and the job; no command touches the status, the trigger memory or the dispatched calls |
| Remind2RestDaemon.ReloadAllOrNothing | Remind2Rest.py:202-208 | RELOAD either changes nothing (a file that fails to load) or replaces the whole configuration and rebuilds the job from it, keeping the status and trigger memory |
| Remind2RestDaemon.StatusQueryIsReadOnly | Remind2Rest.py:209-211 | any other payload is answered with `current_status` and changes nothing |
| Remind2RestDaemon.StepSpec | Remind2Rest.py:193-211 | a tick or a connection never installs a job with interval 0 |
| Remind2RestDaemon.ServeSpec | Remind2Rest.py:193-211 | the command loop keeps every installed job's interval non-zero |
| Remind2RestDaemon.StartSpec | Remind2Rest.py:179-191 | the daemon starts exactly when the file is a document that passes validation and schedules; it then holds that document, its typed job, an empty status, no remembered key, no dispatches and a running loop |
| Remind2RestDaemon.Daemon.constructor | Remind2Rest.py:39 | the process state before scheduling: the loaded document, no job, the empty status, no remembered key |
| Remind2RestDaemon.Daemon.UpdateStatus | Remind2Rest.py:69-79 | the new record always replaces `current_status`, and the log line written is the one `StatusLog` gives for the old status |
| Remind2RestDaemon.Daemon.TriggerReminder | Remind2Rest.py:139-161 | the method's new memory, dispatched calls and raised flag are those of `TriggerOne` |
| Remind2RestDaemon.Daemon.ScheduleReminders | Remind2Rest.py:82-97 | the installed job is the one `ScheduleSpec` gives |
| Remind2RestDaemon.Daemon.CheckAndTriggerReminders | Remind2Rest.py:102-134 | the tick leaves exactly the state `TickSpec` gives: the tick's trigger calls in order, then the nearest candidate's status, with the status kept when a call raised or no countdown was non-negative |
| Remind2RestDaemon.Daemon.ScanModule | Remind2Rest.py:114-125 | one module adds nothing when disabled; otherwise its offsets, in list order, extend the scan and the trigger calls by that module's candidates, stopping at a call that raises |
| Remind2RestDaemon.Daemon.ScanModules | Remind2Rest.py:113-125 | the outer loop over `eye_relax` then `posture` makes the whole tick's trigger calls in order, stopping at a call that raises, and otherwise ends with the nearest non-negative countdown of all candidates |
| Remind2RestDaemon.Daemon.ScanRun | Remind2Rest.py:115-125 | the visits of one module's candidates, in list order, extend the scan and the trigger calls by exactly those candidates, stopping at a call that raises |
| Remind2RestDaemon.Daemon.Visit | Remind2Rest.py:116-125 | one offset takes the nearest place only when its countdown is non-negative and strictly shorter, and triggers its module only in second 0 of its minute |
| Remind2RestDaemon.Daemon.Step | Remind2Rest.py:193-211 | one event (a run of the job, or one connection) leaves the state and reply that `StepSpec` gives |
| Remind2RestDaemon.Daemon.HandleConnection | Remind2Rest.py:197-213 | the method's new state and reply are those `HandleSpec` gives |
| Remind2RestDaemon.Daemon.Serve | Remind2Rest.py:193-220 | the loop over events leaves the state and replies that `ServeSpec` gives |
| Remind2RestDaemon.ServeUnfold | Remind2Rest.py:193-211 | while the loop runs, serving the events from position `i` on is one step followed by serving the rest, with that step's reply appended to the replies so far |
| Remind2RestDaemon.CandidatesOverPrefix | Remind2Rest.py:113-115 | the candidates of the first modules are a prefix of all candidates |
| Remind2RestDaemon.ScanStep | Remind2Rest.py:116-125 | visiting one more candidate updates the nearest choice by one comparison and makes at most one trigger call |
| Remind2RestDaemon.AbortDuringTick | Remind2Rest.py:113-125 | a call that raises part-way through leaves the state the whole tick would |
| Remind2RestDaemon.TickResult | Remind2Rest.py:113-134 | the tick's new state is fixed by the outcome of its trigger calls and its scan: the status changes only when no call raised and a candidate was chosen |
| Remind2RestDaemon.Launch | Remind2Rest.py:179-191 | nothing runs unless the configuration loads and schedules; otherwise the daemon is in the state `StartSpec` gives |
| SimpleReminder.TriggerReminder | src/reminder_app.py:30-35 | `eye_relax` sends ("Eye Relax Reminder", "Time to rest your eyes!"), `posture` sends ("Posture Reminder", "Check your posture!"), any other name sends nothing |
| SimpleReminder.MatchingCalls | src/reminder_app.py:24-26 | a module's list makes at most one call per entry, each naming the module, and none when the elapsed minute is not in the list |
| SimpleReminder.MatchingCallsRepeat | src/reminder_app.py:24-26 | a module's list produces one call per entry equal to the elapsed minute |
| SimpleReminder.TickCalls | src/reminder_app.py:17-26 | a tick raises ZeroDivisionError exactly for an interval of 0 |
| SimpleReminder.TickCallsCounted | src/reminder_app.py:17-26 | a tick calls `eye_relax` once per matching offset and then `posture` likewise, in second 0 and for enabled modules only; these are exactly the calls the Remind2Rest.py tick makes before its dedup |
| SimpleReminder.CalledIff | src/reminder_app.py:22-26 | a module is called iff it is enabled, one of its offsets is the elapsed minute, and the second is 0 |
| SimpleReminder.Notifications | src/reminder_app.py:30-35 | the calls send at most one notification each, and only the two known ones |
| SimpleReminder.NotificationsAppend | src/reminder_app.py:30-35 | the notifications of two runs of calls concatenate |
| SimpleReminder.NotificationsRepeat | src/reminder_app.py:30-35 | repeated calls for one module send its notification that many times |
| SimpleReminder.CheckAndTrigger | src/reminder_app.py:17-35 | one tick raises exactly for an interval of 0 |
| SimpleReminder.TickNotifications | src/reminder_app.py:17-35 | with no dedup, a tick sends the eye-relax notification once per matching offset and then the posture one once per matching offset; a disabled module sends nothing |
| SimpleReminder.DefaultScenario | src/reminder_app.py:17-35 | with the default configuration, 10:20:00 sends one eye-relax notification, 10:30:00 one posture notification, and 10:20:01 nothing |
| SimpleReminder.DefaultTicks | src/reminder_app.py:17-35 | on any configuration with the default window, flags and offsets, the same three ticks send the same notifications |
| SimpleReminder.DefaultTick | src/reminder_app.py:17-35 | with the default offsets and window, a tick at `10:minute:second` sends the eye-relax notifications matching the minute, then the posture ones |
| SimpleReminder.Start | src/reminder_app.py:37-49 | `main` never takes the `config is None` exit; it schedules a valid configuration or crashes on a TypeError from validation |
| ReminderApp.InitTimestamps | ReminderApp.py:64-68 | a timestamp exists iff its reminder is enabled; eye relax is due one interval after `now`, posture one interval plus the offset after `now` |
| ReminderApp.Padded | ReminderApp.py:27-32 | after `init_mmap_file` the length is `max(len, 8)`, the old bytes are kept and the padding is zero bytes |
| ReminderApp.Cleared | ReminderApp.py:34-40 | bytes 0..7 become zero and every later byte is unchanged |
| ReminderApp.Written | ReminderApp.py:42-48 | the status bytes appear at offset 0 and every later byte is unchanged |
| ReminderApp.InitMmapFile | ReminderApp.py:27-32 | the file after the call is `Padded` of the file before; a file already long enough is the same file |
| ReminderApp.ClearMmapCommandFile | ReminderApp.py:34-40 | the array after the call is `Cleared` of the array before |
| ReminderApp.SetMmap | ReminderApp.py:42-48 | the array after the call is `Written` of the array before |
| ReminderApp.RunningStateReadsBack | ReminderApp.py:14 | after start-up the state window reads `RUNNING` plus the old byte 7, so `RUNNING\0` for a file shorter than the window, which is never the 8-byte `RUNNING ` of web_configurator.py:19 |
| ReminderApp.IterateSpec | ReminderApp.py:97-130 | an iteration keeps both files covering the window and their lengths |
| ReminderApp.StopEndsLoop | ReminderApp.py:105-109 | STOP writes STOPPED, clears the command buffer and ends the loop before any reminder is checked |
| ReminderApp.ReloadRearmsFromNow | ReminderApp.py:111-115 | RELOAD adopts the file's settings, re-arms both timestamps as `init_timestamps` does at `now` and clears the command buffer |
| ReminderApp.OtherCommandUntouched | ReminderApp.py:105-115 | any other command is neither acted on nor cleared |
| ReminderApp.CheckReminders | ReminderApp.py:122-130 | the reminder checks append one dispatch per due reminder, keep the timestamp of a reminder that is not due, and touch neither the settings nor the files |
| ReminderApp.FiresIffDue | ReminderApp.py:122-130 | a reminder fires iff its timestamp exists and has been reached, eye relax first, with its parameters; it is re-armed from `now`, or otherwise keeps its timestamp |
| ReminderApp.RearmMatchesInit | ReminderApp.py:64-68 | timestamps exist exactly for enabled reminders after every iteration; a re-armed timestamp equals the one `init_timestamps` gives at that moment, so the posture offset is added again on every cycle; with positive periods it lies strictly in the future |
| ReminderApp.Deliver | ReminderApp.py:100-103 | an external write keeps the command file covering the window |
| ReminderApp.RunSpec | ReminderApp.py:97-132 | the loop keeps both files covering the window |
| ReminderApp.RunUnfold | ReminderApp.py:97-132 | while the loop runs, running the passes from position `i` on is that pass followed by the rest |
| ReminderApp.StopCommandStops | ReminderApp.py:105-109 | a STOP written by another process ends the loop at the next pass, with nothing dispatched and the command buffer clear |
| ReminderApp.App.constructor | ReminderApp.py:89-95 | the loop starts with the loaded settings, the timestamps of `init_timestamps`, and nothing dispatched |
| ReminderApp.App.Iterate | ReminderApp.py:97-130 | one pass leaves exactly the state `IterateSpec` gives |
| ReminderApp.App.Reload | ReminderApp.py:111-115 | the RELOAD branch installs the new settings and fresh timestamps and clears the command buffer |
| ReminderApp.App.FireDue | ReminderApp.py:122-130 | the reminder checks leave exactly the state `CheckReminders` gives |
| ReminderApp.App.Run | ReminderApp.py:97-132 | the loop leaves exactly the state `RunSpec` gives |
| ReminderApp.Launch | ReminderApp.py:70-95 | both files are padded; without the lock nothing else changes; with it the command buffer is cleared, RUNNING is written and the loop state is initialised |

## Left out

- Sockets, APScheduler, threads, `mmap`/`fcntl` locking, `time.sleep` and the
  real clock are left out. Time is a parameter, and the lock is a boolean.
- Logging, `print` and the `display_current_config` output are left out,
  except for the figure `update_status` logs (`StatusLog`). They are side
  effects with no bearing on the state.
- The Tk and desktop notification windows are left out. A dispatch is
  recorded as a value.
- `json.dump`/`json.load` are treated as an exact round trip.
  - A JSON file that fails to parse in `ReminderApp.py` (which crashes there)
    is not modelled.
  - Float timestamps are integer seconds.
- Duck typing of configuration values is left out:
  - the tick reads `enabled` as a JSON boolean, and `global_interval` and the
    offsets as integers;
  - Python would also accept truthy values, floats or other numeric types;
    for `Remind2Rest.py` the model reports no job for such a document.
- SimpleReminder.TickCalls: ticks are modelled only on a configuration read
  as typed values (`Reminders.Typed`). `SimpleReminder.Start` schedules any
  document that passes the strict key checks, so a document whose module
  entries are, say, lists of key names is scheduled; Python then raises a
  TypeError at `config[module]['enabled']` on every tick, which the model
  does not capture.
- ReminderApp.App.Reload re-arms both timestamps from the pass's `now`.
  Python's `init_timestamps` reads `time.time()` again, a moment later.
- `ReminderApp.AppConfig` is already typed. A missing key there raises
  `KeyError` in Python, and that is not modelled.
- `Remind2RestDaemon.Daemon.TriggerReminder` is given the tick's minute.
  Python re-reads the clock inside `trigger_reminder`, which can differ when
  a tick straddles a minute boundary.
- `Remind2RestDaemon.ServeSpec` assumes the `except Exception` handler around
  the socket is only reached by the exceptions modelled: a TypeError from
  `load_config`, or `schedule_reminders` raising during a reload.
- `Remind2RestDaemon.StartSpec` treats an exception during start-up as an
  exit, and does not distinguish it from the logged `config is None` return.
- The removal of the socket, lock and mapped files at exit, and the
  truncation of `conn.recv(1024)`, are left out.
- `ConfigManager.SaveConfig`: the write is modelled as atomic. A failure of
  the file system during `json.dump` is not modelled.
- `ConfigManager` of `src/config_manager.py`: `print_config_summary` is not
  part of this model. It only prints.
- Four behaviours of `Remind2Rest.py` are modelled as the code has them:
  - the code keeps one remembered trigger key shared by both modules, so
    re-running a tick that fired both modules dispatches both again
    (`Remind2RestSchedule.RepeatedTwoModuleTickRedispatches`);
  - the remembered key holds the minute but not the hour, so with one
    module and a 60-minute window a reminder fires once and is then
    suppressed every later hour until another call replaces the key
    (`Remind2RestDaemon.HourlyRepeatSuppressed`);
  - a tick in which no countdown is non-negative raises on `int(inf)`, so
    the status is left as it was;
  - a `RELOAD` whose document makes `schedule_reminders` raise keeps the new
    configuration and leaves no job installed.
