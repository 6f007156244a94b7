/**
 * The simpler scheduler of src/reminder_app.py: a per-second tick that calls
 * `trigger_reminder` for every enabled offset equal to the elapsed minute in
 * second 0, with no memory of earlier calls and no status, and a
 * `trigger_reminder` that maps a module to a desktop notification.
 */
module SimpleReminder {
  import opened PyValues
  import opened Reminders
  import ConfigManager

  /** The arguments of one `send_notification` call. */
  datatype Notification = Notification(title: string, message: string)

  const EyeRelaxNote := Notification("Eye Relax Reminder", "Time to rest your eyes!")
  const PostureNote := Notification("Posture Reminder", "Check your posture!")

  /** `trigger_reminder(module, settings)`: the notification sent, if any; the settings are not read. */
  function TriggerReminder(mod: string): (r: Option<Notification>)
    ensures r == Some(EyeRelaxNote) <==> mod == EyeRelax
    ensures r == Some(PostureNote) <==> mod == Posture
    ensures r.None? <==> mod !in ModuleNames
  {
    if mod == EyeRelax then Some(EyeRelaxNote)
    else if mod == Posture then Some(PostureNote)
    else None
  }

  /** The calls one module's reminder list produces: one per entry equal to the elapsed minute. */
  function MatchingCalls(name: string, rs: seq<int>, e: int): (r: seq<string>)
    ensures |r| <= |rs|
    ensures forall k :: 0 <= k < |r| ==> r[k] == name
    ensures e !in rs ==> r == []
    decreases |rs|
  {
    if rs == [] then []
    else MatchingCalls(name, rs[..|rs| - 1], e) + (if rs[|rs| - 1] == e then [name] else [])
  }

  lemma {:induction false} MatchingCallsRepeat(name: string, rs: seq<int>, e: int)
    ensures MatchingCalls(name, rs, e) == Repeat(name, CountOf(rs, e))
    decreases |rs|
  {
    if rs != [] {
      MatchingCallsRepeat(name, rs[..|rs| - 1], e);
    }
  }

  /**
   * The `trigger_reminder` calls of one run of `check_and_trigger_reminders`
   * at `hour:minute:second`; an interval of 0 makes the `%` raise.
   */
  function TickCalls(cfg: Config, hour: int, minute: int, second: int): (r: Result<seq<string>>)
    ensures r.Raise? <==> cfg.interval == 0
    ensures r.Raise? ==> r.error == ZeroDivisionError
  {
    if cfg.interval == 0 then Raise(ZeroDivisionError)
    else
      var e := ElapsedMinute(hour, minute, cfg.interval);
      Ok((if cfg.eyeRelax.enabled then (if second < 1 then MatchingCalls(EyeRelax, cfg.eyeRelax.reminders, e) else []) else [])
       + (if cfg.posture.enabled then (if second < 1 then MatchingCalls(Posture, cfg.posture.reminders, e) else []) else []))
  }

  /**
   * The tick calls `eye_relax` once per offset equal to the elapsed minute,
   * then `posture` likewise, in second 0 and for enabled modules only:
   * exactly the calls the Remind2Rest.py tick makes before its dedup.
   */
  lemma TickCallsCounted(cfg: Config, hour: int, minute: int, second: int)
    requires cfg.interval != 0
    ensures var e := ElapsedMinute(hour, minute, cfg.interval);
      && TickCalls(cfg, hour, minute, second).value
         == (if second < 1 && cfg.eyeRelax.enabled then Repeat(EyeRelax, CountOf(cfg.eyeRelax.reminders, e)) else [])
          + (if second < 1 && cfg.posture.enabled then Repeat(Posture, CountOf(cfg.posture.reminders, e)) else [])
      && TickCalls(cfg, hour, minute, second).value == Fires(Candidates(cfg, e, second), e, second)
  {
    var e := ElapsedMinute(hour, minute, cfg.interval);
    MatchingCallsRepeat(EyeRelax, cfg.eyeRelax.reminders, e);
    MatchingCallsRepeat(Posture, cfg.posture.reminders, e);
    TickTriggers(cfg, e, second);
  }

  /** A module is called in a tick iff it is enabled, one of its offsets is the elapsed minute, and the second is 0. */
  lemma CalledIff(cfg: Config, name: string, hour: int, minute: int, second: int)
    requires cfg.interval != 0 && name in ModuleNames && 0 <= second
    ensures name in TickCalls(cfg, hour, minute, second).value
      <==> cfg.Module(name).enabled && ElapsedMinute(hour, minute, cfg.interval) in cfg.Module(name).reminders && second == 0
  {
    TickCallsCounted(cfg, hour, minute, second);
    ModuleFiresIff(cfg, name, ElapsedMinute(hour, minute, cfg.interval), second);
  }

  /** The notifications a sequence of `trigger_reminder` calls sends, in order. */
  function Notifications(calls: seq<string>): (ns: seq<Notification>)
    ensures |ns| <= |calls|
    ensures forall n :: n in ns ==> n == EyeRelaxNote || n == PostureNote
    decreases |calls|
  {
    if calls == [] then []
    else
      var rest := Notifications(calls[..|calls| - 1]);
      match TriggerReminder(calls[|calls| - 1])
      case None => rest
      case Some(n) => rest + [n]
  }

  lemma {:induction false} NotificationsAppend(a: seq<string>, b: seq<string>)
    ensures Notifications(a + b) == Notifications(a) + Notifications(b)
    decreases |b|
  {
    if b == [] {
      assert a + b == a;
    } else {
      NotificationsAppend(a, b[..|b| - 1]);
      assert (a + b)[..|a + b| - 1] == a + b[..|b| - 1];
    }
  }

  lemma {:induction false} NotificationsRepeat(name: string, n: nat)
    requires name in ModuleNames
    ensures Notifications(Repeat(name, n)) == seq(n, k => TriggerReminder(name).value)
    decreases n
  {
    if n > 0 {
      NotificationsRepeat(name, n - 1);
      assert Repeat(name, n)[..n - 1] == Repeat(name, n - 1);
    }
  }

  /** One tick's effect: the notifications sent, or the exception the job raises. */
  function CheckAndTrigger(cfg: Config, hour: int, minute: int, second: int): (r: Result<seq<Notification>>)
    ensures r.Raise? <==> cfg.interval == 0
  {
    match TickCalls(cfg, hour, minute, second)
    case Raise(err) => Raise(err)
    case Ok(calls) => Ok(Notifications(calls))
  }

  /**
   * No dedup: a tick sends the eye-relax notification once per matching
   * offset and then the posture notification once per matching offset,
   * duplicates included; a disabled module sends nothing, whatever its list.
   */
  lemma TickNotifications(cfg: Config, hour: int, minute: int, second: int)
    requires cfg.interval != 0
    ensures var e := ElapsedMinute(hour, minute, cfg.interval);
      var eyes := if second < 1 && cfg.eyeRelax.enabled then CountOf(cfg.eyeRelax.reminders, e) else 0;
      var postures := if second < 1 && cfg.posture.enabled then CountOf(cfg.posture.reminders, e) else 0;
      CheckAndTrigger(cfg, hour, minute, second).value
        == seq(eyes, k => EyeRelaxNote) + seq(postures, k => PostureNote)
  {
    var e := ElapsedMinute(hour, minute, cfg.interval);
    TickCallsCounted(cfg, hour, minute, second);
    var eyes := if second < 1 && cfg.eyeRelax.enabled then CountOf(cfg.eyeRelax.reminders, e) else 0;
    var postures := if second < 1 && cfg.posture.enabled then CountOf(cfg.posture.reminders, e) else 0;
    NotificationsAppend(Repeat(EyeRelax, eyes), Repeat(Posture, postures));
    NotificationsRepeat(EyeRelax, eyes);
    NotificationsRepeat(Posture, postures);
  }

  /** With the default configuration, 10:20:00 sends exactly one eye-relax notification and 10:30:00 one posture notification. */
  lemma DefaultScenario()
    ensures var cfg := Typed(ConfigManager.DefaultConfig()).value;
      && CheckAndTrigger(cfg, 10, 20, 0) == Ok([EyeRelaxNote])
      && CheckAndTrigger(cfg, 10, 30, 0) == Ok([PostureNote])
      && CheckAndTrigger(cfg, 10, 20, 1) == Ok([])
  {
    DefaultTicks(Typed(ConfigManager.DefaultConfig()).value);
  }

  /** The same three ticks on any configuration with the default window, flags and offsets. */
  lemma DefaultTicks(cfg: Config)
    requires cfg.interval == 60 && cfg.eyeRelax.enabled && cfg.posture.enabled
    requires cfg.eyeRelax.reminders == [20, 40] && cfg.posture.reminders == [30]
    ensures CheckAndTrigger(cfg, 10, 20, 0) == Ok([EyeRelaxNote])
    ensures CheckAndTrigger(cfg, 10, 30, 0) == Ok([PostureNote])
    ensures CheckAndTrigger(cfg, 10, 20, 1) == Ok([])
  {
    assert CountOf([20, 40], 20) == 1 && CountOf([30], 20) == 0;
    assert CountOf([20, 40], 30) == 0 && CountOf([30], 30) == 1;
    DefaultTick(cfg, 20, 0, 1, 0);
    DefaultTick(cfg, 30, 0, 0, 1);
    DefaultTick(cfg, 20, 1, 0, 0);
    assert seq(1, k => EyeRelaxNote) + seq(0, k => PostureNote) == [EyeRelaxNote];
    assert seq(0, k => EyeRelaxNote) + seq(1, k => PostureNote) == [PostureNote];
  }

  /** A tick at `10:minute:second` under the default offsets sends `eyes` eye-relax then `postures` posture notifications. */
  lemma DefaultTick(cfg: Config, minute: int, second: int, eyes: nat, postures: nat)
    requires cfg.interval == 60 && cfg.eyeRelax.enabled && cfg.posture.enabled
    requires cfg.eyeRelax.reminders == [20, 40] && cfg.posture.reminders == [30]
    requires 0 <= minute < 60
    requires eyes == (if second < 1 then CountOf([20, 40], minute) else 0)
    requires postures == (if second < 1 then CountOf([30], minute) else 0)
    ensures CheckAndTrigger(cfg, 10, minute, second) == Ok(seq(eyes, k => EyeRelaxNote) + seq(postures, k => PostureNote))
  {
    assert ElapsedMinute(10, minute, 60) == minute;
    TickNotifications(cfg, 10, minute, second);
  }

  /** How `main` ends up: it never exits for want of a configuration. */
  datatype MainOutcome =
    | ExitNoConfig               // the `config is None` branch
    | Scheduled(config: Json)    // the job is installed and the process idles
    | Crashed(error: PyError)    // `load_config` let an exception escape

  function Start(file: ConfigFile): (r: MainOutcome)
    ensures r != ExitNoConfig
    ensures r.Scheduled? ==> ConfigManager.ValidateConfig(r.config) == Pass
    ensures r.Crashed? <==> file.Document? && ConfigManager.ValidateConfig(file.doc) == Fail(TypeError)
  {
    match ConfigManager.LoadConfig(file)
    case Raise(err) => Crashed(err)
    case Ok(config) => Scheduled(config)
  }
}
