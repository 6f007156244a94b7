/**
 * The Remind2Rest.py daemon as a state machine: the configuration `main`
 * holds, the job `schedule_reminders` installs, the module-global
 * `current_status`, the key remembered by `trigger_reminder`, the calls
 * dispatched so far, and whether the command loop has stopped. Ticks of the
 * background job and connections to the control socket are taken as one
 * sequence of events.
 */
module Remind2RestDaemon {
  import opened PyValues
  import opened Reminders
  import opened KeyChecks
  import opened Remind2RestConfig
  import opened Remind2RestSchedule

  /** Everything the daemon's behaviour depends on. `status == None` is the empty dict `{}`. */
  datatype Snapshot = Snapshot(
    config: Json,
    job: Option<Config>,
    status: Option<Status>,
    lastTrigger: Option<string>,
    dispatched: seq<Dispatch>,
    stopped: bool)

  /** An installed job never divides by zero: `schedule_reminders` raised before installing one for interval 0. */
  predicate Healthy(st: Snapshot) {
    st.job.Some? ==> st.job.value.interval != 0
  }

  /** What `datetime.now()` can give. */
  predicate WallClock(hour: int, minute: int, second: int) {
    0 <= hour < 24 && 0 <= minute < 60 && 0 <= second < 60
  }

  /** Some enabled module has an offset, so the `min` over `next_times` has something to take. */
  predicate HasEnabledReminder(cfg: Config) {
    (cfg.eyeRelax.enabled && |cfg.eyeRelax.reminders| > 0) || (cfg.posture.enabled && |cfg.posture.reminders| > 0)
  }

  /**
   * The job left installed by `schedule_reminders(doc)`: it first removes
   * every job, then raises (leaving none) when the document's values are not
   * of the expected types, when the interval is 0, or when no enabled module
   * has an offset; otherwise it installs a tick over the document.
   */
  function ScheduleSpec(doc: Json): (job: Option<Config>)
    ensures job.Some? <==> Typed(doc).Some? && Typed(doc).value.interval != 0 && HasEnabledReminder(Typed(doc).value)
    ensures job.Some? ==> job == Typed(doc)
  {
    match Typed(doc)
    case None => None
    case Some(cfg) => if cfg.interval == 0 || !HasEnabledReminder(cfg) then None else Some(cfg)
  }

  /** An installed job always has something to consider, so its `min` never raises. */
  lemma ScheduledJobHasCandidates(doc: Json, e: int, second: int)
    requires ScheduleSpec(doc).Some?
    ensures Candidates(ScheduleSpec(doc).value, e, second) != []
  {
    var cfg := ScheduleSpec(doc).value;
    CandidatesSplit(cfg, e, second);
    if cfg.eyeRelax.enabled && |cfg.eyeRelax.reminders| > 0 {
      assert |ModuleCands(cfg, EyeRelax, e, second)| > 0;
    } else {
      assert |ModuleCands(cfg, Posture, e, second)| > 0;
    }
  }

  /**
   * One run of `check_and_trigger_reminders` at `hour:minute:second`: the
   * trigger calls of the tick in order, then, unless one of them raised or
   * no countdown is non-negative (`int(inf)` raises), the status of the
   * nearest candidate replaces `current_status`.
   */
  function TickSpec(st: Snapshot, hour: int, minute: nat, second: int): (r: Snapshot)
    requires st.job.Some? && st.job.value.interval != 0
    ensures r.status != st.status ==>
      && r.status.Some? && r.status.value.running
      && r.status.value.totalInterval == Pad2(st.job.value.interval)
  {
    var cfg := st.job.value;
    var e := ElapsedMinute(hour, minute, cfg.interval);
    var cs := Candidates(cfg, e, second);
    var tr := TriggerAll(Triggering(st.lastTrigger, st.dispatched, false), Fires(cs, e, second), cfg, minute);
    var status :=
      if tr.aborted then st.status
      else match NearestOf(cs)
        case None => st.status
        case Some(c) => Some(StatusOf(c, cfg.interval));
    st.(lastTrigger := tr.last, dispatched := tr.dispatched, status := status)
  }

  /** A tick changes only the trigger memory, the dispatched calls and the status. */
  lemma TickKeepsConfig(st: Snapshot, hour: int, minute: nat, second: int)
    requires st.job.Some? && st.job.value.interval != 0
    ensures var st' := TickSpec(st, hour, minute, second);
      st'.config == st.config && st'.job == st.job && st'.stopped == st.stopped
      && st.dispatched <= st'.dispatched
  {
    var cfg := st.job.value;
    var e := ElapsedMinute(hour, minute, cfg.interval);
    TriggerAllExtends(Triggering(st.lastTrigger, st.dispatched, false), Fires(Candidates(cfg, e, second), e, second), cfg, minute);
  }

  lemma {:induction false} TriggerAllExtends(st: Triggering, fired: seq<string>, cfg: Config, minute: nat)
    requires !st.aborted
    ensures st.dispatched <= TriggerAll(st, fired, cfg, minute).dispatched
    decreases |fired|
  {
    if fired != [] {
      TriggerAllExtends(st, fired[..|fired| - 1], cfg, minute);
    }
  }

  /**
   * A published countdown lies in `[0, interval*60)` and names an enabled
   * module whose offset it counts down to.
   */
  lemma PublishedCountdownBounded(cfg: Config, hour: int, minute: int, second: int)
    requires cfg.interval > 0 && WallClock(hour, minute, second)
    ensures var e := ElapsedMinute(hour, minute, cfg.interval);
      var best := NearestOf(Candidates(cfg, e, second));
      best.Some? ==>
        && 0 <= best.value.seconds < cfg.interval * 60
        && best.value.name in ModuleNames && cfg.Module(best.value.name).enabled
        && best.value.reminder in cfg.Module(best.value.name).reminders
  {
    var e := ElapsedMinute(hour, minute, cfg.interval);
    CandidatesFromEnabledModules(cfg, e, second);
  }

  /** The `eye_relax` candidates open the candidate list. */
  lemma EyesComeFirst(cfg: Config, e: int, second: int)
    requires cfg.interval != 0
    ensures var eyes := ModuleCands(cfg, EyeRelax, e, second);
      && |eyes| <= |Candidates(cfg, e, second)|
      && forall i :: 0 <= i < |eyes| ==> eyes[i].name == EyeRelax && Candidates(cfg, e, second)[i] == eyes[i]
  {
    CandidatesSplit(cfg, e, second);
  }

  /**
   * Ties go to declaration order: when `posture` is published, every
   * non-negative `eye_relax` countdown of the same tick is strictly longer.
   */
  lemma TieGoesToEyeRelax(cfg: Config, e: int, second: int)
    requires cfg.interval != 0
    ensures var best := NearestOf(Candidates(cfg, e, second));
      best.Some? && best.value.name == Posture ==>
        forall c :: c in ModuleCands(cfg, EyeRelax, e, second) && c.seconds >= 0 ==> best.value.seconds < c.seconds
  {
    var cs := Candidates(cfg, e, second);
    var eyes := ModuleCands(cfg, EyeRelax, e, second);
    EyesComeFirst(cfg, e, second);
    NearestIsFirstMinimum(cs);
    var best := NearestOf(cs);
    if best.Some? && best.value.name == Posture {
      var k :| FirstMinimumAt(cs, k) && cs[k] == best.value;
      assert k >= |eyes|;
      forall c | c in eyes && c.seconds >= 0
        ensures best.value.seconds < c.seconds
      {
        var i :| 0 <= i < |eyes| && eyes[i] == c;
        assert cs[i] == c;
      }
    }
  }

  /** A tick at the first second of one of `eye_relax`'s offsets publishes a countdown of zero to `eye_relax`. */
  lemma ZeroCountdownAtOffset(cfg: Config, hour: int, minute: int)
    requires cfg.interval > 0 && WallClock(hour, minute, 0)
    requires cfg.eyeRelax.enabled && ElapsedMinute(hour, minute, cfg.interval) in cfg.eyeRelax.reminders
    ensures var e := ElapsedMinute(hour, minute, cfg.interval);
      var best := NearestOf(Candidates(cfg, e, 0));
      best.Some? && best.value.seconds == 0 && best.value.name == EyeRelax
  {
    var e := ElapsedMinute(hour, minute, cfg.interval);
    var cs := Candidates(cfg, e, 0);
    var eyes := ModuleCands(cfg, EyeRelax, e, 0);
    CandidatesSplit(cfg, e, 0);
    NearestIsFirstMinimum(cs);
    var j :| 0 <= j < |cfg.eyeRelax.reminders| && cfg.eyeRelax.reminders[j] == e;
    assert cs[j] == eyes[j] && eyes[j].seconds == 0;
    var k :| FirstMinimumAt(cs, k) && cs[k] == NearestOf(cs).value;
    assert k <= j && cs[k] == eyes[k];
  }

  /** With a 60-minute window the elapsed minute is the wall-clock minute, whatever the hour. */
  lemma HourlyElapsed(hour: int, minute: int)
    requires WallClock(hour, minute, 0)
    ensures ElapsedMinute(hour, minute, 60) == minute
  {
  }

  /**
   * A tick at the first second of a listed minute, with only `eye_relax`
   * enabled and a 60-minute window, leaves the key `eye_relax_<minute>`
   * remembered; the key holds no hour, so when it is remembered already the
   * tick dispatches nothing.
   */
  lemma EyeTickRemembers(st: Snapshot, hour: int, minute: nat)
    requires st.job.Some? && st.job.value.interval == 60 && WallClock(hour, minute, 0)
    requires !st.job.value.posture.enabled && st.job.value.eyeRelax.enabled && minute in st.job.value.eyeRelax.reminders
    ensures TickSpec(st, hour, minute, 0).lastTrigger == Some(TriggerKey(EyeRelax, minute))
    ensures st.lastTrigger == Some(TriggerKey(EyeRelax, minute)) ==> TickSpec(st, hour, minute, 0).dispatched == st.dispatched
    ensures var eye := st.job.value.eyeRelax.settings;
      st.lastTrigger != Some(TriggerKey(EyeRelax, minute)) && "flash_frequency" in eye && "relax_duration" in eye ==>
        TickSpec(st, hour, minute, 0).dispatched == st.dispatched + [EyeRelaxCall(eye["flash_frequency"], eye["relax_duration"])]
  {
    var cfg := st.job.value;
    HourlyElapsed(hour, minute);
    TickTriggers(cfg, minute, 0);
    CountOfPositive(cfg.eyeRelax.reminders, minute);
    var fired := Fires(Candidates(cfg, minute, 0), minute, 0);
    assert fired == Repeat(EyeRelax, CountOf(cfg.eyeRelax.reminders, minute)) + [];
    var init := Triggering(st.lastTrigger, st.dispatched, false);
    RememberedAfter(init, fired, cfg, minute);
    if st.lastTrigger == Some(TriggerKey(EyeRelax, minute)) {
      IdleWhenRemembered(init, fired, cfg, minute);
    } else if "flash_frequency" in cfg.eyeRelax.settings && "relax_duration" in cfg.eyeRelax.settings {
      EyeRelaxDispatchedOnce(init, fired, cfg, minute);
    }
  }

  /**
   * The remembered key names the minute but not the hour: with one module
   * and a 60-minute window, a reminder that fires at `h1:minute:00` does not
   * fire again at `h2:minute:00` of any later hour, as long as no other
   * call replaced the key in between.
   */
  lemma HourlyRepeatSuppressed(st: Snapshot, h1: int, h2: int, minute: nat)
    requires st.job.Some? && st.job.value.interval == 60 && WallClock(h1, minute, 0) && WallClock(h2, minute, 0)
    requires !st.job.value.posture.enabled && st.job.value.eyeRelax.enabled && minute in st.job.value.eyeRelax.reminders
    requires "flash_frequency" in st.job.value.eyeRelax.settings && "relax_duration" in st.job.value.eyeRelax.settings
    requires st.lastTrigger != Some(TriggerKey(EyeRelax, minute))
    ensures var first := TickSpec(st, h1, minute, 0);
      && |first.dispatched| == |st.dispatched| + 1
      && TickSpec(first, h2, minute, 0).dispatched == first.dispatched
  {
    var first := TickSpec(st, h1, minute, 0);
    EyeTickRemembers(st, h1, minute);
    TickKeepsConfig(st, h1, minute, 0);
    EyeTickRemembers(first, h2, minute);
  }

  /** The two commands; anything else on the socket is a status query. */
  const CmdStop := Ascii("STOP")
  const CmdReload := Ascii("RELOAD")

  /** The reply written back on the connection: only status queries get one, the JSON of `current_status`. */
  datatype Reply = NoReply | StatusReply(status: Option<Status>)

  /**
   * One connection carrying `data`, with `file` what the configuration file
   * holds at that moment. STOP ends the loop; RELOAD swaps in the new
   * document and reschedules only when `load_config` returns one (a raised
   * TypeError is caught by the connection handler); anything else is
   * answered with the current status and changes nothing.
   */
  function HandleSpec(st: Snapshot, data: seq<byte>, file: ConfigFile): (r: (Snapshot, Reply))
    ensures r.1.StatusReply? <==> data != CmdStop && data != CmdReload
    ensures r.1.StatusReply? ==> r.1.status == st.status
    ensures r.0.stopped <==> st.stopped || data == CmdStop
    ensures r.0.status == st.status && r.0.lastTrigger == st.lastTrigger && r.0.dispatched == st.dispatched
    ensures data == CmdStop ==> r.0 == st.(stopped := true)
    ensures data != CmdReload ==> r.0.config == st.config && r.0.job == st.job
  {
    if data == CmdStop then (st.(stopped := true), NoReply)
    else if data == CmdReload then
      match LoadConfig(file)
      case Ok(Some(doc)) => (st.(config := doc, job := ScheduleSpec(doc)), NoReply)
      case _ => (st, NoReply)
    else (st, StatusReply(st.status))
  }

  /**
   * Reload is all-or-nothing: either nothing changes, or the whole validated
   * document replaces the configuration and the job is rebuilt from it, and
   * the status, trigger memory and dispatched calls are kept.
   */
  lemma ReloadAllOrNothing(st: Snapshot, file: ConfigFile)
    ensures var st' := HandleSpec(st, CmdReload, file).0;
      || (st' == st && !(file.Document? && ValidateRequired(file.doc) == Pass))
      || (&& file.Document? && ValidateRequired(file.doc) == Pass
          && st' == st.(config := file.doc, job := ScheduleSpec(file.doc)))
  {
    assert CmdReload != CmdStop by {
      assert CmdReload[0] != CmdStop[0];
    }
  }

  /** A status query answers `current_status` and changes nothing. */
  lemma StatusQueryIsReadOnly(st: Snapshot, data: seq<byte>, file: ConfigFile)
    requires data != CmdStop && data != CmdReload
    ensures HandleSpec(st, data, file) == (st, StatusReply(st.status))
  {
  }

  /** A background tick or one connection to the control socket. */
  datatype Event =
    | Tick(hour: int, minute: nat, second: int)
    | Connection(data: seq<byte>, file: ConfigFile)

  function StepSpec(st: Snapshot, ev: Event): (r: (Snapshot, Reply))
    requires Healthy(st)
    ensures Healthy(r.0)
  {
    match ev
    case Tick(h, m, s) => (if st.job.Some? then TickSpec(st, h, m, s) else st, NoReply)
    case Connection(data, file) => HandleSpec(st, data, file)
  }

  /** The command loop over a sequence of events, up to and including a STOP. */
  function ServeSpec(st: Snapshot, events: seq<Event>): (r: (Snapshot, seq<Reply>))
    requires Healthy(st)
    ensures Healthy(r.0)
    decreases |events|
  {
    if events == [] || st.stopped then (st, [])
    else
      var (st1, reply) := StepSpec(st, events[0]);
      var (st2, replies) := ServeSpec(st1, events[1..]);
      (st2, [reply] + replies)
  }

  /** `main` up to the command loop: load the configuration, exit on None, schedule (an exception exits too). */
  function StartSpec(file: ConfigFile): (r: Option<Snapshot>)
    ensures r.Some? ==> Healthy(r.value) && r.value.job.Some? && !r.value.stopped && r.value.status.None?
    ensures r.Some? ==> file == Document(r.value.config) && ValidateRequired(r.value.config) == Pass
    ensures r.Some? <==> file.Document? && ValidateRequired(file.doc) == Pass && ScheduleSpec(file.doc).Some?
    ensures r.Some? ==> r.value.job == Typed(r.value.config) && r.value.lastTrigger.None? && r.value.dispatched == []
  {
    var loaded := LoadConfig(file);
    if loaded.Ok? && loaded.value.Some? && ScheduleSpec(loaded.value.value).Some?
    then Some(Snapshot(loaded.value.value, ScheduleSpec(loaded.value.value), None, None, [], false))
    else None
  }

  class Daemon {
    var config: Json
    var job: Option<Config>
    var currentStatus: Option<Status>
    var lastTrigger: Option<string>
    var dispatched: seq<Dispatch>
    var stopped: bool

    ghost predicate Valid()
      reads this
    {
      Healthy(State())
    }

    function State(): Snapshot
      reads this
    {
      Snapshot(config, job, currentStatus, lastTrigger, dispatched, stopped)
    }

    /** The process right after `load_config` returned `doc`, before scheduling. */
    constructor (doc: Json)
      ensures Valid() && State() == Snapshot(doc, None, None, None, [], false)
    {
      config := doc;
      job := None;
      currentStatus := None;
      lastTrigger := None;
      dispatched := [];
      stopped := false;
    }

    /** `update_status`: the new record always replaces `current_status`; `logged` is the minutes figure of its log line, if one is written. */
    method UpdateStatus(status: Status) returns (logged: Option<int>)
      modifies this`currentStatus
      ensures currentStatus == Some(status)
      ensures logged == StatusLog(old(currentStatus), status)
    {
      logged := None;
      if currentStatus.None? || currentStatus.value.nextReminder != status.nextReminder {
        logged := Some(LoggedMinutes(status));
      }
      currentStatus := Some(status);
    }

    /** `trigger_reminder(module, settings)`; `raised` reports the KeyError of a missing parameter. */
    method TriggerReminder(mod: string, settings: map<string, Json>, minute: nat) returns (raised: bool)
      modifies this`lastTrigger, this`dispatched
      ensures var r := TriggerOne(Triggering(old(lastTrigger), old(dispatched), false), mod, settings, minute);
        lastTrigger == r.last && dispatched == r.dispatched && raised == r.aborted
    {
      var key := TriggerKey(mod, minute);
      if lastTrigger == Some(key) {
        return false;
      }
      lastTrigger := Some(key);
      raised := false;
      if mod == EyeRelax {
        if !("flash_frequency" in settings && "relax_duration" in settings) {
          return true;
        }
        dispatched := dispatched + [EyeRelaxCall(settings["flash_frequency"], settings["relax_duration"])];
      } else if mod == Posture {
        if "wait_duration" !in settings {
          return true;
        }
        dispatched := dispatched + [PostureCall(settings["wait_duration"])];
      }
    }

    /** `schedule_reminders(scheduler, doc)`. */
    method ScheduleReminders(doc: Json)
      modifies this`job
      ensures job == ScheduleSpec(doc)
    {
      job := None;
      var typed := Typed(doc);
      if typed.None? || typed.value.interval == 0 || !HasEnabledReminder(typed.value) {
        return;
      }
      job := typed;
    }

    /** `check_and_trigger_reminders` at `hour:minute:second`. */
    method CheckAndTriggerReminders(hour: int, minute: nat, second: int)
      requires Valid() && job.Some?
      modifies this`lastTrigger, this`dispatched, this`currentStatus
      ensures Valid() && State() == TickSpec(old(State()), hour, minute, second)
    {
      var cfg := job.value;
      var e := ElapsedMinute(hour, minute, cfg.interval);
      var best, raised := ScanModules(cfg, e, second, minute);
      TickResult(old(State()), hour, minute, second, Triggering(lastTrigger, dispatched, raised), best);
      if !raised && best.Some? {
        var _ := UpdateStatus(StatusOf(best.value, cfg.interval));
      }
    }

    /**
     * The outer loop of the tick over the modules in declaration order: the
     * scan for the nearest countdown and every trigger call, stopping at a
     * call that raises.
     */
    method ScanModules(cfg: Config, e: int, second: int, minute: nat) returns (best: Option<Candidate>, raised: bool)
      requires cfg.interval != 0
      modifies this`lastTrigger, this`dispatched
      ensures Triggering(lastTrigger, dispatched, raised)
        == TriggerAll(Triggering(old(lastTrigger), old(dispatched), false), Fires(Candidates(cfg, e, second), e, second), cfg, minute)
      ensures !raised ==> best == NearestOf(Candidates(cfg, e, second))
    {
      ghost var init := Triggering(lastTrigger, dispatched, false);
      ghost var seen: seq<Candidate> := [];
      best := None;
      raised := false;
      var i := 0;
      while i < |ModuleNames|
        invariant 0 <= i <= |ModuleNames|
        invariant seen == CandidatesOver(cfg, ModuleNames[..i], e, second)
        invariant best == NearestOf(seen)
        invariant Triggering(lastTrigger, dispatched, false) == TriggerAll(init, Fires(seen, e, second), cfg, minute)
      {
        ModuleStep(cfg, i, e, second);
        best, raised := ScanModule(cfg, ModuleNames[i], e, second, minute, init, seen, best);
        seen := seen + ModuleCands(cfg, ModuleNames[i], e, second);
        if raised {
          CandidatesOverPrefix(cfg, ModuleNames, i + 1, e, second);
          AbortDuringTick(init, seen, Candidates(cfg, e, second), cfg, e, second, minute);
          return;
        }
        i := i + 1;
      }
      assert ModuleNames[..i] == ModuleNames;
    }

    /**
     * The inner loop of the tick over one module's offsets: the scan for the
     * nearest countdown and the trigger calls, stopping at a call that raises.
     */
    method ScanModule(cfg: Config, name: string, e: int, second: int, minute: nat,
                      ghost init: Triggering, ghost before: seq<Candidate>, best0: Option<Candidate>)
      returns (best: Option<Candidate>, raised: bool)
      requires cfg.interval != 0 && !init.aborted
      requires best0 == NearestOf(before)
      requires Triggering(lastTrigger, dispatched, false) == TriggerAll(init, Fires(before, e, second), cfg, minute)
      modifies this`lastTrigger, this`dispatched
      ensures var after := before + ModuleCands(cfg, name, e, second);
        && Triggering(lastTrigger, dispatched, raised) == TriggerAll(init, Fires(after, e, second), cfg, minute)
        && (!raised ==> best == NearestOf(after))
    {
      best := best0;
      raised := false;
      var mc := cfg.Module(name);
      ghost var mine := ModuleCands(cfg, name, e, second);
      if !mc.enabled {
        assert before + mine == before;
        return;
      }
      var run := CandsOf(name, mc.reminders, e, second, cfg.interval);
      best, raised := ScanRun(cfg, run, e, second, minute, init, before, best0);
    }

    /**
     * The visits of one module's candidates in list order, stopping at a
     * trigger call that raises.
     */
    method ScanRun(cfg: Config, run: seq<Candidate>, e: int, second: int, minute: nat,
                   ghost init: Triggering, ghost before: seq<Candidate>, best0: Option<Candidate>)
      returns (best: Option<Candidate>, raised: bool)
      requires !init.aborted && best0 == NearestOf(before)
      requires Triggering(lastTrigger, dispatched, false) == TriggerAll(init, Fires(before, e, second), cfg, minute)
      modifies this`lastTrigger, this`dispatched
      ensures Triggering(lastTrigger, dispatched, raised) == TriggerAll(init, Fires(before + run, e, second), cfg, minute)
      ensures !raised ==> best == NearestOf(before + run)
    {
      best := best0;
      raised := false;
      var j := 0;
      ghost var seen := before;
      while j < |run|
        invariant 0 <= j <= |run|
        invariant seen == before + run[..j]
        invariant best == NearestOf(seen)
        invariant Triggering(lastTrigger, dispatched, false) == TriggerAll(init, Fires(seen, e, second), cfg, minute)
      {
        best, raised := Visit(cfg, run[j], e, second, minute, init, seen, best);
        RunStep(before, run, j);
        seen := seen + [run[j]];
        if raised {
          AbortDuringTick(init, seen, before + run, cfg, e, second, minute);
          return;
        }
        j := j + 1;
      }
      assert run[..j] == run;
    }

    /**
     * One pass of the inner loop body: the candidate may become the nearest,
     * and when its offset is the elapsed minute in second 0 its module is triggered.
     */
    method Visit(cfg: Config, c: Candidate, e: int, second: int, minute: nat,
                 ghost init: Triggering, ghost seen: seq<Candidate>, best0: Option<Candidate>)
      returns (best: Option<Candidate>, raised: bool)
      requires !init.aborted && best0 == NearestOf(seen)
      requires Triggering(lastTrigger, dispatched, false) == TriggerAll(init, Fires(seen, e, second), cfg, minute)
      modifies this`lastTrigger, this`dispatched
      ensures Triggering(lastTrigger, dispatched, raised) == TriggerAll(init, Fires(seen + [c], e, second), cfg, minute)
      ensures !raised ==> best == NearestOf(seen + [c])
    {
      ScanStep(init, seen, c, cfg, e, second, minute);
      best := best0;
      raised := false;
      if 0 <= c.seconds && (best.None? || c.seconds < best.value.seconds) {
        best := Some(c);
      }
      if c.reminder == e && second < 1 {
        raised := TriggerReminder(c.name, cfg.Module(c.name).settings, minute);
      }
    }

    /** One connection to the control socket; the reply is what is sent back. */
    method HandleConnection(data: seq<byte>, file: ConfigFile) returns (reply: Reply)
      requires Valid()
      modifies this
      ensures Valid() && (State(), reply) == HandleSpec(old(State()), data, file)
    {
      reply := NoReply;
      if data == CmdStop {
        stopped := true;
      } else if data == CmdReload {
        var newConfig := LoadConfig(file);
        if newConfig.Ok? && newConfig.value.Some? {
          config := newConfig.value.value;
          ScheduleReminders(config);
        }
      } else {
        reply := StatusReply(currentStatus);
      }
    }

    /** One event: a run of the tick job when one is installed, or one connection. */
    method Step(ev: Event) returns (reply: Reply)
      requires Valid()
      modifies this
      ensures Valid() && (State(), reply) == StepSpec(old(State()), ev)
    {
      reply := NoReply;
      match ev {
        case Tick(h, m, s) =>
          if job.Some? {
            CheckAndTriggerReminders(h, m, s);
          }
        case Connection(data, file) =>
          reply := HandleConnection(data, file);
      }
    }

    /** The `while True` loop of `main`, fed a finite sequence of ticks and connections. */
    method Serve(events: seq<Event>) returns (replies: seq<Reply>)
      requires Valid()
      modifies this
      ensures Valid() && (State(), replies) == ServeSpec(old(State()), events)
    {
      replies := [];
      var i := 0;
      assert events[0..] == events;
      assert [] + ServeSpec(State(), events).1 == ServeSpec(State(), events).1;
      while i < |events| && !stopped
        invariant 0 <= i <= |events| && Valid()
        invariant ServeSpec(old(State()), events) == (ServeSpec(State(), events[i..]).0, replies + ServeSpec(State(), events[i..]).1)
        decreases |events| - i
      {
        ghost var pre := State();
        var reply := Step(events[i]);
        ServeUnfold(pre, events, i, State(), reply, replies);
        replies := replies + [reply];
        i := i + 1;
      }
      assert ServeSpec(State(), events[i..]) == (State(), []);
      assert replies + [] == replies;
    }
  }

  /** The tick's new state, given the outcome of its trigger calls and of its scan. */
  lemma TickResult(st: Snapshot, hour: int, minute: nat, second: int, tr: Triggering, best: Option<Candidate>)
    requires st.job.Some? && st.job.value.interval != 0
    requires var cfg := st.job.value;
      var e := ElapsedMinute(hour, minute, cfg.interval);
      && tr == TriggerAll(Triggering(st.lastTrigger, st.dispatched, false), Fires(Candidates(cfg, e, second), e, second), cfg, minute)
      && (!tr.aborted ==> best == NearestOf(Candidates(cfg, e, second)))
    ensures TickSpec(st, hour, minute, second)
      == st.(lastTrigger := tr.last, dispatched := tr.dispatched,
             status := if !tr.aborted && best.Some? then Some(StatusOf(best.value, st.job.value.interval)) else st.status)
  {
  }

  /** One step of the command loop, taken apart. */
  lemma ServeUnfold(st: Snapshot, events: seq<Event>, i: nat, st1: Snapshot, reply: Reply, replies: seq<Reply>)
    requires Healthy(st) && i < |events| && !st.stopped
    requires (st1, reply) == StepSpec(st, events[i])
    ensures Healthy(st1)
    ensures ServeSpec(st, events[i..]) == (ServeSpec(st1, events[i + 1..]).0, [reply] + ServeSpec(st1, events[i + 1..]).1)
    ensures replies + ServeSpec(st, events[i..]).1 == (replies + [reply]) + ServeSpec(st1, events[i + 1..]).1
  {
    assert events[i..][0] == events[i] && events[i..][1..] == events[i + 1..];
  }

  /** What visiting one more candidate adds to the scan and to the trigger calls. */
  lemma ScanStep(init: Triggering, seen: seq<Candidate>, c: Candidate, cfg: Config, e: int, second: int, minute: nat)
    requires !init.aborted && !TriggerAll(init, Fires(seen, e, second), cfg, minute).aborted
    ensures NearestOf(seen + [c]) == Consider(NearestOf(seen), c)
    ensures TriggerAll(init, Fires(seen + [c], e, second), cfg, minute)
      == if FiresNow(c, e, second)
         then TriggerOne(TriggerAll(init, Fires(seen, e, second), cfg, minute), c.name, cfg.Module(c.name).settings, minute)
         else TriggerAll(init, Fires(seen, e, second), cfg, minute)
  {
    assert (seen + [c])[..|seen|] == seen;
    var fs := Fires(seen, e, second);
    if FiresNow(c, e, second) {
      assert Fires(seen + [c], e, second) == fs + [c.name];
      assert (fs + [c.name])[..|fs|] == fs;
    } else {
      assert Fires(seen + [c], e, second) == fs + [];
      assert fs + [] == fs;
    }
  }

  /** Extending the visited part of a run by one candidate keeps it a prefix of the run. */
  lemma RunStep(before: seq<Candidate>, run: seq<Candidate>, j: nat)
    requires j < |run|
    ensures before + run[..j + 1] == (before + run[..j]) + [run[j]]
    ensures before + run[..j + 1] <= before + run
  {
    assert run[..j + 1] == run[..j] + [run[j]];
  }

  /** The candidates of the first `i + 1` modules extend those of the first `i` by module `i`'s. */
  lemma ModuleStep(cfg: Config, i: nat, e: int, second: int)
    requires cfg.interval != 0 && i < |ModuleNames|
    ensures CandidatesOver(cfg, ModuleNames[..i + 1], e, second)
      == CandidatesOver(cfg, ModuleNames[..i], e, second) + ModuleCands(cfg, ModuleNames[i], e, second)
  {
    assert ModuleNames[..i + 1][..i] == ModuleNames[..i];
  }

  /** The candidates of the first `k` modules are a prefix of those of all of them. */
  lemma {:induction false} CandidatesOverPrefix(cfg: Config, names: seq<string>, k: nat, e: int, second: int)
    requires cfg.interval != 0 && k <= |names|
    ensures CandidatesOver(cfg, names[..k], e, second) <= CandidatesOver(cfg, names, e, second)
    decreases |names|
  {
    if k < |names| {
      var front := names[..|names| - 1];
      assert names[..k] == front[..k];
      CandidatesOverPrefix(cfg, front, k, e, second);
    } else {
      assert names[..k] == names;
    }
  }

  /** A trigger call that raises part-way through a tick leaves the state the whole tick would. */
  lemma AbortDuringTick(init: Triggering, seen: seq<Candidate>, all: seq<Candidate>, cfg: Config, e: int, second: int, minute: nat)
    requires !init.aborted && seen <= all
    requires TriggerAll(init, Fires(seen, e, second), cfg, minute).aborted
    ensures TriggerAll(init, Fires(all, e, second), cfg, minute) == TriggerAll(init, Fires(seen, e, second), cfg, minute)
  {
    var rest := all[|seen|..];
    assert all == seen + rest;
    FiresAppend(seen, rest, e, second);
    AbortEndsTick(init, Fires(seen, e, second), Fires(rest, e, second), cfg, minute);
  }

  /** `main`: nothing runs when the configuration cannot be loaded or scheduled. */
  method Launch(file: ConfigFile) returns (d: Daemon?)
    ensures d == null <==> StartSpec(file).None?
    ensures d != null ==> fresh(d) && d.Valid() && d.State() == StartSpec(file).value
  {
    var loaded := LoadConfig(file);
    if !(loaded.Ok? && loaded.value.Some?) {
      return null;
    }
    d := new Daemon(loaded.value.value);
    d.ScheduleReminders(d.config);
    if d.job.None? {
      return null;
    }
  }
}
