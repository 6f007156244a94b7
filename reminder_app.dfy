/**
 * The timestamp scheduler of ReminderApp.py. It talks to other processes
 * through two memory-mapped files whose first 8 bytes are a command buffer
 * and a state buffer, keeps one next-fire timestamp per reminder in integer
 * seconds, and fires a reminder once the clock reaches its timestamp.
 */
module ReminderApp {
  import opened PyValues
  import opened Reminders

  /** The mapped window of each file. */
  const Window := 8

  const CmdStop := Ascii("STOP    ")
  const CmdReload := Ascii("RELOAD  ")
  /** Seven bytes, one short of the window. */
  const StatusRunning := Ascii("RUNNING")
  const StatusStopped := Ascii("STOPPED")
  /** The eight-byte state the web configurator of web_configurator.py compares the state buffer with. */
  const WebStatusRunning := Ascii("RUNNING ")

  /** The settings `main` reads from reminder_config.json. */
  datatype AppConfig = AppConfig(
    eyeRelaxEnabled: bool,
    eyeRelaxInterval: int,
    relaxDuration: Json,
    flashFrequency: Json,
    postureEnabled: bool,
    postureInterval: int,
    waitDuration: Json,
    offset: int)

  /**
   * `init_timestamps(config)` at time `now`: eye relax is due one interval
   * from now, posture one interval plus the offset from now, and a disabled
   * reminder has no timestamp.
   */
  function InitTimestamps(config: AppConfig, now: int): (r: (Option<int>, Option<int>))
    ensures r.0.Some? <==> config.eyeRelaxEnabled
    ensures r.1.Some? <==> config.postureEnabled
    ensures r.0.Some? ==> r.0.value - now == config.eyeRelaxInterval * 60
    ensures r.1.Some? ==> r.1.value - now == (config.postureInterval + config.offset) * 60
  {
    (if config.eyeRelaxEnabled then Some(now + config.eyeRelaxInterval * 60) else None,
     if config.postureEnabled then Some(now + config.postureInterval * 60 + config.offset * 60) else None)
  }

  /**
   * A file after `init_mmap_file`: its length is at least the window,
   * what it held is kept, and the padding appended is zero bytes.
   */
  function Padded(s: seq<byte>): (r: seq<byte>)
    ensures |r| == if |s| < Window then Window else |s|
    ensures s <= r
    ensures forall k :: |s| <= k < |r| ==> r[k] == 0
  {
    if |s| < Window then s + Zeros(Window - |s|) else s
  }

  /** A file after `clear_mmap_command_file`: the window zeroed, the rest untouched. */
  function Cleared(s: seq<byte>): (r: seq<byte>)
    requires |s| >= Window
    ensures |r| == |s|
    ensures forall k :: 0 <= k < Window ==> r[k] == 0
    ensures forall k :: Window <= k < |s| ==> r[k] == s[k]
  {
    Zeros(Window) + s[Window..]
  }

  /** A file after `data` is written at offset 0 of its window: later bytes are untouched. */
  function Written(s: seq<byte>, data: seq<byte>): (r: seq<byte>)
    requires |data| <= Window <= |s|
    ensures |r| == |s| && r[..|data|] == data
    ensures forall k :: |data| <= k < |s| ==> r[k] == s[k]
  {
    data + s[|data|..]
  }

  /** `init_mmap_file`: a file shorter than the window is extended with zero bytes, a longer one is left alone. */
  method InitMmapFile(f: array<byte>) returns (g: array<byte>)
    ensures g[..] == Padded(f[..])
    ensures f.Length >= Window ==> g == f
    ensures f.Length < Window ==> fresh(g)
  {
    if f.Length >= Window {
      return f;
    }
    g := new byte[Window];
    var k := 0;
    while k < Window
      invariant 0 <= k <= Window
      invariant forall i :: 0 <= i < k ==> g[i] == Padded(f[..])[i]
    {
      g[k] := if k < f.Length then f[k] else 0;
      k := k + 1;
    }
  }

  /** `clear_mmap_command_file`: eight zero bytes over the window. */
  method ClearMmapCommandFile(a: array<byte>)
    requires a.Length >= Window
    modifies a
    ensures a[..] == Cleared(old(a[..]))
  {
    var k := 0;
    while k < Window
      invariant 0 <= k <= Window
      invariant forall i :: 0 <= i < k ==> a[i] == 0
      invariant forall i :: k <= i < a.Length ==> a[i] == old(a[i])
    {
      a[k] := 0;
      k := k + 1;
    }
  }

  /** `set_mmap(file, status)`: the status bytes over the start of the window. */
  method SetMmap(a: array<byte>, status: seq<byte>)
    requires |status| <= Window <= a.Length
    modifies a
    ensures a[..] == Written(old(a[..]), status)
  {
    var k := 0;
    while k < |status|
      invariant 0 <= k <= |status|
      invariant forall i :: 0 <= i < k ==> a[i] == status[i]
      invariant forall i :: k <= i < a.Length ==> a[i] == old(a[i])
    {
      a[k] := status[k];
      k := k + 1;
    }
  }

  /**
   * After start-up the state window reads `RUNNING` followed by whatever the
   * file held at byte 7; a file that was shorter than the window reads
   * `RUNNING\0`, which is never the `RUNNING ` the web configurator expects.
   */
  lemma RunningStateReadsBack(s: seq<byte>)
    ensures var w := Written(Padded(s), StatusRunning)[..Window];
      && w == StatusRunning + [Padded(s)[7]]
      && (w == WebStatusRunning <==> Padded(s)[7] == 32)
    ensures |s| < Window ==> Written(Padded(s), StatusRunning)[..Window] == StatusRunning + [0]
    ensures |s| < Window ==> Written(Padded(s), StatusRunning)[..Window] != WebStatusRunning
  {
    var w := Written(Padded(s), StatusRunning)[..Window];
    assert w == StatusRunning + [Padded(s)[7]];
    assert WebStatusRunning == StatusRunning + [32];
  }

  /** What the loop of `main` works on. */
  datatype AppState = AppState(
    config: AppConfig,
    eyeNext: Option<int>,
    postureNext: Option<int>,
    cmd: seq<byte>,
    state: seq<byte>,
    dispatched: seq<Dispatch>,
    running: bool)

  /** Both files cover the mapped window. */
  predicate Mapped(st: AppState) {
    |st.cmd| >= Window && |st.state| >= Window
  }

  /** A reminder is due when it has a timestamp and the clock has reached it. */
  predicate Due(next: Option<int>, now: int) {
    next.Some? && now >= next.value
  }

  /** The two reminder checks at the end of an iteration, eye relax first. */
  function CheckReminders(st: AppState, now: int): (r: AppState)
    ensures r.config == st.config && r.cmd == st.cmd && r.state == st.state && r.running == st.running
    ensures st.dispatched <= r.dispatched
    ensures |r.dispatched| == |st.dispatched| + (if Due(st.eyeNext, now) then 1 else 0) + (if Due(st.postureNext, now) then 1 else 0)
    ensures !Due(st.eyeNext, now) ==> r.eyeNext == st.eyeNext
    ensures !Due(st.postureNext, now) ==> r.postureNext == st.postureNext
  {
    var st1 :=
      if Due(st.eyeNext, now)
      then st.(dispatched := st.dispatched + [EyeRelaxCall(st.config.flashFrequency, st.config.relaxDuration)],
               eyeNext := Some(now + st.config.eyeRelaxInterval * 60))
      else st;
    if Due(st1.postureNext, now)
    then st1.(dispatched := st1.dispatched + [PostureCall(st1.config.waitDuration)],
              postureNext := Some(now + st1.config.postureInterval * 60 + st1.config.offset * 60))
    else st1
  }

  /**
   * One iteration of the loop at time `now`, with `fileConfig` what
   * reminder_config.json holds: STOP writes the stopped state, clears the
   * command and ends the loop; RELOAD swaps in the file's settings,
   * re-initialises both timestamps from `now` and clears the command; then
   * each reminder that is due fires and is re-armed from `now`.
   */
  function IterateSpec(st: AppState, now: int, fileConfig: AppConfig): (r: AppState)
    requires Mapped(st)
    ensures Mapped(r) && |r.cmd| == |st.cmd| && |r.state| == |st.state|
  {
    var command := st.cmd[..Window];
    if command == CmdStop then
      st.(state := Written(st.state, StatusStopped), cmd := Cleared(st.cmd), running := false)
    else
      var st1 :=
        if command == CmdReload
        then st.(config := fileConfig, eyeNext := InitTimestamps(fileConfig, now).0,
                 postureNext := InitTimestamps(fileConfig, now).1, cmd := Cleared(st.cmd))
        else st;
      CheckReminders(st1, now)
  }

  /** STOP ends the loop before any reminder is checked, and leaves a clear command buffer behind. */
  lemma StopEndsLoop(st: AppState, now: int, fileConfig: AppConfig)
    requires Mapped(st) && st.cmd[..Window] == CmdStop
    ensures var r := IterateSpec(st, now, fileConfig);
      && !r.running && r.dispatched == st.dispatched
      && r.config == st.config && r.eyeNext == st.eyeNext && r.postureNext == st.postureNext
      && r.state[..|StatusStopped|] == StatusStopped && r.cmd[..Window] == Zeros(Window)
  {
  }

  /**
   * RELOAD adopts the file's settings and re-arms both reminders from
   * `now`; with positive intervals nothing fires in that iteration and the
   * timestamps are exactly those of `init_timestamps`.
   */
  lemma ReloadRearmsFromNow(st: AppState, now: int, fileConfig: AppConfig)
    requires Mapped(st) && st.cmd[..Window] == CmdReload
    requires fileConfig.eyeRelaxInterval > 0 && fileConfig.postureInterval + fileConfig.offset > 0
    ensures var r := IterateSpec(st, now, fileConfig);
      && r.running == st.running && r.config == fileConfig
      && (r.eyeNext, r.postureNext) == InitTimestamps(fileConfig, now)
      && r.dispatched == st.dispatched
      && r.cmd == Cleared(st.cmd) && r.state == st.state
  {
    assert CmdReload[0] != CmdStop[0];
  }

  /** Any other command is neither acted on nor cleared: only the reminder checks run. */
  lemma OtherCommandUntouched(st: AppState, now: int, fileConfig: AppConfig)
    requires Mapped(st) && st.cmd[..Window] != CmdStop && st.cmd[..Window] != CmdReload
    ensures var r := IterateSpec(st, now, fileConfig);
      && r.cmd == st.cmd && r.state == st.state && r.config == st.config && r.running == st.running
  {
  }

  /**
   * Outside STOP and RELOAD, a reminder fires iff it is due, fires once,
   * eye relax before posture, with the configured parameters; a fired
   * reminder is re-armed one period after `now` and one that did not fire
   * keeps its timestamp.
   */
  lemma FiresIffDue(st: AppState, now: int, fileConfig: AppConfig)
    requires Mapped(st) && st.cmd[..Window] != CmdStop && st.cmd[..Window] != CmdReload
    ensures var r := IterateSpec(st, now, fileConfig);
      && r.dispatched == st.dispatched
           + (if Due(st.eyeNext, now) then [EyeRelaxCall(st.config.flashFrequency, st.config.relaxDuration)] else [])
           + (if Due(st.postureNext, now) then [PostureCall(st.config.waitDuration)] else [])
      && r.eyeNext == (if Due(st.eyeNext, now) then Some(now + st.config.eyeRelaxInterval * 60) else st.eyeNext)
      && r.postureNext == (if Due(st.postureNext, now)
                           then Some(now + (st.config.postureInterval + st.config.offset) * 60) else st.postureNext)
  {
  }

  /** The timestamps exist exactly for the enabled reminders. */
  predicate Armed(st: AppState) {
    (st.eyeNext.Some? <==> st.config.eyeRelaxEnabled) && (st.postureNext.Some? <==> st.config.postureEnabled)
  }

  /**
   * Every iteration keeps the timestamps matched to the enabled flags, and
   * a timestamp re-armed after firing is the one `init_timestamps` would
   * give at that moment: the posture offset is added again on every cycle.
   * With positive periods a re-armed timestamp lies strictly in the future.
   */
  lemma RearmMatchesInit(st: AppState, now: int, fileConfig: AppConfig)
    requires Mapped(st) && Armed(st)
    ensures Armed(IterateSpec(st, now, fileConfig))
    ensures var r := IterateSpec(st, now, fileConfig);
      st.cmd[..Window] != CmdStop && st.cmd[..Window] != CmdReload ==>
        && (Due(st.eyeNext, now) ==> r.eyeNext == InitTimestamps(st.config, now).0)
        && (Due(st.postureNext, now) ==> r.postureNext == InitTimestamps(st.config, now).1)
        && (Due(st.eyeNext, now) && st.config.eyeRelaxInterval > 0 ==> r.eyeNext.value > now)
        && (Due(st.postureNext, now) && st.config.postureInterval + st.config.offset > 0 ==> r.postureNext.value > now)
  {
  }

  /** One pass of the loop: what another process writes to the command buffer first, the clock, and the config file. */
  datatype Step = Step(write: Option<seq<byte>>, now: int, fileConfig: AppConfig)

  /** Every external write fits the window, as `mmap.write` demands. */
  predicate StepsFit(steps: seq<Step>) {
    forall i :: 0 <= i < |steps| ==> steps[i].write.Some? ==> |steps[i].write.value| <= Window
  }

  /** The command buffer after an external write such as `stop_reminderapp.py`'s. */
  function Deliver(st: AppState, write: Option<seq<byte>>): (r: AppState)
    requires Mapped(st) && (write.Some? ==> |write.value| <= Window)
    ensures Mapped(r)
  {
    match write
    case None => st
    case Some(w) => st.(cmd := Written(st.cmd, w))
  }

  /** The loop over a sequence of passes, until STOP. */
  function RunSpec(st: AppState, steps: seq<Step>): (r: AppState)
    requires Mapped(st) && StepsFit(steps)
    ensures Mapped(r)
    decreases |steps|
  {
    if steps == [] || !st.running then st
    else RunSpec(IterateSpec(Deliver(st, steps[0].write), steps[0].now, steps[0].fileConfig), steps[1..])
  }

  /** One pass of the loop over the passes from `i` on, taken apart. */
  lemma RunUnfold(st: AppState, steps: seq<Step>, i: nat)
    requires Mapped(st) && StepsFit(steps) && i < |steps| && st.running
    ensures StepsFit(steps[i + 1..]) && (steps[i].write.Some? ==> |steps[i].write.value| <= Window)
    ensures StepsFit(steps[i..])
    ensures RunSpec(st, steps[i..])
      == RunSpec(IterateSpec(Deliver(st, steps[i].write), steps[i].now, steps[i].fileConfig), steps[i + 1..])
  {
    assert steps[i..][0] == steps[i] && steps[i..][1..] == steps[i + 1..];
  }

  /** A STOP written by another process ends the loop at the next pass, with nothing dispatched. */
  lemma StopCommandStops(st: AppState, s: Step, rest: seq<Step>)
    requires Mapped(st) && st.running && s.write == Some(CmdStop) && StepsFit([s] + rest)
    ensures var r := RunSpec(st, [s] + rest);
      !r.running && r.dispatched == st.dispatched && r.cmd[..Window] == Zeros(Window)
  {
    assert StepsFit([s]) && StepsFit(rest) by {
      assert forall i :: 0 <= i < |rest| ==> rest[i] == ([s] + rest)[i + 1];
    }
    var delivered := Deliver(st, s.write);
    assert delivered.cmd[..Window] == CmdStop;
    var r1 := IterateSpec(delivered, s.now, s.fileConfig);
    assert ([s] + rest)[1..] == rest;
    assert RunSpec(st, [s] + rest) == RunSpec(r1, rest);
    if rest != [] {
      assert RunSpec(r1, rest) == r1;
    }
  }

  class App {
    var config: AppConfig
    var eyeNext: Option<int>
    var postureNext: Option<int>
    var cmd: array<byte>
    var state: array<byte>
    var dispatched: seq<Dispatch>
    var running: bool

    /** Two distinct files, each covering the window. */
    ghost predicate Valid()
      reads this
    {
      cmd.Length >= Window && state.Length >= Window && cmd != state
    }

    function State(): AppState
      reads this, cmd, state
    {
      AppState(config, eyeNext, postureNext, cmd[..], state[..], dispatched, running)
    }

    /** The loop's variables once the files are set up and the configuration is read. */
    constructor (cmdFile: array<byte>, stateFile: array<byte>, initial: AppConfig, now: int)
      requires cmdFile.Length >= Window && stateFile.Length >= Window && cmdFile != stateFile
      ensures Valid() && cmd == cmdFile && state == stateFile
      ensures config == initial && (eyeNext, postureNext) == InitTimestamps(initial, now)
      ensures dispatched == [] && running
    {
      config := initial;
      cmd := cmdFile;
      state := stateFile;
      var (eye, posture) := InitTimestamps(initial, now);
      eyeNext := eye;
      postureNext := posture;
      dispatched := [];
      running := true;
    }

    /** One pass of the `while True` loop at time `now`. */
    method Iterate(now: int, fileConfig: AppConfig)
      requires Valid()
      modifies this, cmd, state
      ensures Valid() && cmd == old(cmd) && state == old(state)
      ensures State() == IterateSpec(old(State()), now, fileConfig)
    {
      var command := cmd[..Window];
      if command == CmdStop {
        SetMmap(state, StatusStopped);
        ClearMmapCommandFile(cmd);
        running := false;
        return;
      }
      if command == CmdReload {
        Reload(fileConfig, now);
      }
      FireDue(now);
    }

    /** The RELOAD branch: the file's settings, fresh timestamps, a cleared command. */
    method Reload(fileConfig: AppConfig, now: int)
      requires Valid()
      modifies this`config, this`eyeNext, this`postureNext, cmd
      ensures Valid()
      ensures State() == old(State()).(config := fileConfig, eyeNext := InitTimestamps(fileConfig, now).0,
                                        postureNext := InitTimestamps(fileConfig, now).1, cmd := Cleared(old(cmd[..])))
    {
      config := fileConfig;
      var (eye, posture) := InitTimestamps(fileConfig, now);
      eyeNext := eye;
      postureNext := posture;
      ClearMmapCommandFile(cmd);
    }

    /** The two reminder checks: fire what is due and re-arm it from `now`. */
    method FireDue(now: int)
      modifies this`dispatched, this`eyeNext, this`postureNext
      ensures State() == CheckReminders(old(State()), now)
    {
      if eyeNext.Some? && now >= eyeNext.value {
        dispatched := dispatched + [EyeRelaxCall(config.flashFrequency, config.relaxDuration)];
        eyeNext := Some(now + config.eyeRelaxInterval * 60);
      }
      if postureNext.Some? && now >= postureNext.value {
        dispatched := dispatched + [PostureCall(config.waitDuration)];
        postureNext := Some(now + config.postureInterval * 60 + config.offset * 60);
      }
    }

    /** The loop of `main`, with other processes' writes to the command buffer interleaved. */
    method Run(steps: seq<Step>)
      requires Valid() && StepsFit(steps)
      modifies this, cmd, state
      ensures Valid() && cmd == old(cmd) && state == old(state)
      ensures State() == RunSpec(old(State()), steps)
    {
      var i := 0;
      while i < |steps| && running
        invariant 0 <= i <= |steps| && Valid() && cmd == old(cmd) && state == old(state)
        invariant StepsFit(steps[i..])
        invariant RunSpec(old(State()), steps) == RunSpec(State(), steps[i..])
        decreases |steps| - i
      {
        RunUnfold(State(), steps, i);
        ghost var pre := State();
        match steps[i].write {
          case None =>
          case Some(w) => SetMmap(cmd, w);
        }
        assert State() == Deliver(pre, steps[i].write);
        Iterate(steps[i].now, steps[i].fileConfig);
        i := i + 1;
      }
    }
  }

  /**
   * `main` up to the loop: both files are padded, then, only if the lock is
   * taken, the command buffer is cleared, RUNNING is written and the
   * timestamps are initialised. Without the lock nothing else is touched.
   */
  method Launch(cmdFile: array<byte>, stateFile: array<byte>, lockTaken: bool, initial: AppConfig, now: int)
    returns (app: App?, cmd: array<byte>, state: array<byte>)
    requires cmdFile != stateFile
    modifies cmdFile, stateFile
    ensures cmd != state
    ensures cmd[..] == if lockTaken then Cleared(Padded(old(cmdFile[..]))) else Padded(old(cmdFile[..]))
    ensures state[..] == if lockTaken then Written(Padded(old(stateFile[..])), StatusRunning) else Padded(old(stateFile[..]))
    ensures app == null <==> !lockTaken
    ensures app != null ==>
      && fresh(app) && app.Valid() && app.cmd == cmd && app.state == state
      && app.State() == AppState(initial, InitTimestamps(initial, now).0, InitTimestamps(initial, now).1, cmd[..], state[..], [], true)
  {
    cmd := InitMmapFile(cmdFile);
    state := InitMmapFile(stateFile);
    if !lockTaken {
      return null, cmd, state;
    }
    ClearMmapCommandFile(cmd);
    SetMmap(state, StatusRunning);
    app := new App(cmd, state, initial, now);
  }
}
