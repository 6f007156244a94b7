/**
 * The per-second job of Remind2Rest.py as functions: which candidate is
 * published as the next reminder, how the status record is formatted, and
 * how `trigger_reminder` suppresses repeats with its single remembered key.
 */
module Remind2RestSchedule {
  import opened PyValues
  import opened Reminders

  /** One comparison of the scan: a non-negative countdown strictly below the best so far replaces it. */
  function Consider(best: Option<Candidate>, c: Candidate): Option<Candidate> {
    if 0 <= c.seconds && (best.None? || c.seconds < best.value.seconds) then Some(c) else best
  }

  /** The candidate the scan publishes, starting from `time_to_next = inf`. */
  function NearestOf(cs: seq<Candidate>): (r: Option<Candidate>)
    ensures r.Some? ==> r.value.seconds >= 0 && r.value in cs
    decreases |cs|
  {
    if cs == [] then None else Consider(NearestOf(cs[..|cs| - 1]), cs[|cs| - 1])
  }

  /**
   * `c` sits at position `k` of `cs`, has the least non-negative countdown,
   * and every earlier non-negative candidate is strictly later: ties go to
   * the first one visited.
   */
  predicate FirstMinimumAt(cs: seq<Candidate>, k: int) {
    && 0 <= k < |cs| && cs[k].seconds >= 0
    && (forall i :: 0 <= i < |cs| && cs[i].seconds >= 0 ==> cs[k].seconds <= cs[i].seconds)
    && (forall i :: 0 <= i < k && cs[i].seconds >= 0 ==> cs[k].seconds < cs[i].seconds)
  }

  /**
   * The scan finds nothing exactly when no countdown is non-negative, and
   * otherwise finds the first candidate with the least non-negative countdown.
   */
  lemma {:induction false} NearestIsFirstMinimum(cs: seq<Candidate>)
    ensures NearestOf(cs).None? <==> forall i :: 0 <= i < |cs| ==> cs[i].seconds < 0
    ensures NearestOf(cs).Some? ==> exists k :: FirstMinimumAt(cs, k) && cs[k] == NearestOf(cs).value
    decreases |cs|
  {
    if cs != [] {
      var pre := cs[..|cs| - 1];
      var last := cs[|cs| - 1];
      NearestIsFirstMinimum(pre);
      var best := NearestOf(pre);
      assert forall i :: 0 <= i < |pre| ==> pre[i] == cs[i];
      if 0 <= last.seconds && (best.None? || last.seconds < best.value.seconds) {
        if best.Some? {
          var k :| FirstMinimumAt(pre, k) && pre[k] == best.value;
        }
        assert FirstMinimumAt(cs, |cs| - 1);
      } else if best.Some? {
        var k :| FirstMinimumAt(pre, k) && pre[k] == best.value;
        assert FirstMinimumAt(cs, k);
      }
    }
  }

  /** The status record `check_and_trigger_reminders` publishes. */
  datatype Status = Status(running: bool, nextReminder: string, timeToNext: string, totalInterval: string)

  /** `f"{m:02d}:{s:02d}"` with `m, s = divmod(t, 60)`. */
  function MMSS(t: nat): (r: string)
    ensures |r| >= 5 && ':' in r
    ensures forall k :: 0 <= k < |r| ==> r[k] == ':' || '0' <= r[k] <= '9'
  {
    Pad2(t / 60) + ":" + Pad2(t % 60)
  }

  /** The published status for the chosen candidate. */
  function StatusOf(c: Candidate, interval: int): (r: Status)
    requires c.seconds >= 0
    ensures r.running && r.nextReminder == c.name
    ensures r.timeToNext == MMSS(c.seconds) && r.totalInterval == Pad2(interval)
  {
    Status(true, c.name, MMSS(c.seconds), Pad2(interval))
  }

  /** `s.split(":")[0]`. */
  function BeforeColon(s: string): string
    decreases |s|
  {
    if s == [] || s[0] == ':' then [] else [s[0]] + BeforeColon(s[1..])
  }

  /** `s.split(":", 1)[1]`, or empty when there is no colon. */
  function AfterColon(s: string): string
    decreases |s|
  {
    if s == [] then [] else if s[0] == ':' then s[1..] else AfterColon(s[1..])
  }

  lemma {:induction false} SplitAtColon(a: string, b: string)
    requires forall k :: 0 <= k < |a| ==> a[k] != ':'
    ensures BeforeColon(a + ":" + b) == a && AfterColon(a + ":" + b) == b
    decreases |a|
  {
    if a != [] {
      SplitAtColon(a[1..], b);
      assert (a + ":" + b)[1..] == a[1..] + ":" + b;
    } else {
      assert a + ":" + b == [':'] + b;
    }
  }

  /** The minutes `update_status` logs: `int(status["time_to_next"].split(":")[0])`. */
  function LoggedMinutes(status: Status): int {
    ParseDigits(BeforeColon(status.timeToNext))
  }

  /**
   * The log line of `update_status`, if any: it is written when no status was
   * published yet (`current_status` is the empty dict) or when the reminder
   * named changes.
   */
  function StatusLog(current: Option<Status>, status: Status): (r: Option<int>)
    ensures r.Some? <==> current.None? || current.value.nextReminder != status.nextReminder
    ensures r.Some? ==> r.value == LoggedMinutes(status)
  {
    if current.None? || current.value.nextReminder != status.nextReminder then Some(LoggedMinutes(status))
    else None
  }

  /**
   * The countdown text reads back as the countdown: its minutes are
   * `t / 60` (the figure `update_status` logs) and its seconds `t % 60`.
   */
  lemma MMSSReadsBack(t: nat)
    ensures ParseDigits(BeforeColon(MMSS(t))) == t / 60
    ensures ParseDigits(AfterColon(MMSS(t))) == t % 60
    ensures ParseDigits(BeforeColon(MMSS(t))) * 60 + ParseDigits(AfterColon(MMSS(t))) == t
  {
    SplitAtColon(Pad2(t / 60), Pad2(t % 60));
    ParsePad2(t / 60);
    ParsePad2(t % 60);
  }

  /**
   * For a status a tick publishes, the logged figure is the whole minutes of
   * the countdown, and a log line appears exactly when the module named changes.
   */
  lemma StatusLogOfTick(current: Option<Status>, c: Candidate, interval: int)
    requires c.seconds >= 0
    ensures StatusLog(current, StatusOf(c, interval)).Some? <==> current.None? || current.value.nextReminder != c.name
    ensures StatusLog(current, StatusOf(c, interval)).Some? ==> StatusLog(current, StatusOf(c, interval)).value == c.seconds / 60
  {
    MMSSReadsBack(c.seconds);
  }

  /** `trigger_reminder`'s memory and effects: the single remembered key, the dispatched calls, and whether it raised. */
  datatype Triggering = Triggering(last: Option<string>, dispatched: seq<Dispatch>, aborted: bool)

  /** `f"{module}_{minute}"`. */
  function TriggerKey(mod: string, minute: nat): string {
    mod + "_" + NatToString(minute)
  }

  /**
   * `trigger_reminder(module, settings)` at wall-clock minute `minute`: a
   * call whose key is the remembered one does nothing; any other call
   * remembers its key and then dispatches `eye_relax` with its flash
   * frequency and relax duration, `posture` with its wait duration, and
   * nothing for another name. A missing parameter raises KeyError after the
   * key has been remembered.
   */
  function TriggerOne(st: Triggering, mod: string, settings: map<string, Json>, minute: nat): (r: Triggering)
    requires !st.aborted
    ensures r.last == Some(TriggerKey(mod, minute))
    ensures st.last == Some(TriggerKey(mod, minute)) ==> r == st
    ensures st.last != Some(TriggerKey(mod, minute)) && mod == EyeRelax ==>
      if "flash_frequency" in settings && "relax_duration" in settings
      then !r.aborted && r.dispatched == st.dispatched + [EyeRelaxCall(settings["flash_frequency"], settings["relax_duration"])]
      else r.aborted && r.dispatched == st.dispatched
    ensures st.last != Some(TriggerKey(mod, minute)) && mod == Posture ==>
      if "wait_duration" in settings
      then !r.aborted && r.dispatched == st.dispatched + [PostureCall(settings["wait_duration"])]
      else r.aborted && r.dispatched == st.dispatched
    ensures mod !in ModuleNames ==> !r.aborted && r.dispatched == st.dispatched
  {
    var key := TriggerKey(mod, minute);
    if st.last == Some(key) then st
    else
      var remembered := st.(last := Some(key));
      if mod == EyeRelax then
        if "flash_frequency" in settings && "relax_duration" in settings
        then remembered.(dispatched := st.dispatched + [EyeRelaxCall(settings["flash_frequency"], settings["relax_duration"])])
        else remembered.(aborted := true)
      else if mod == Posture then
        if "wait_duration" in settings
        then remembered.(dispatched := st.dispatched + [PostureCall(settings["wait_duration"])])
        else remembered.(aborted := true)
      else remembered
  }

  /** Two identical calls in a row dispatch at most once: the second changes nothing. */
  lemma TriggerTwiceIsOnce(st: Triggering, mod: string, settings: map<string, Json>, minute: nat)
    requires !st.aborted && !TriggerOne(st, mod, settings, minute).aborted
    ensures TriggerOne(TriggerOne(st, mod, settings, minute), mod, settings, minute) == TriggerOne(st, mod, settings, minute)
    ensures |TriggerOne(st, mod, settings, minute).dispatched| <= |st.dispatched| + 1
  {
  }

  /** The trigger calls of one tick, in order; a call that raises ends the tick. */
  function TriggerAll(st: Triggering, fired: seq<string>, cfg: Config, minute: nat): (r: Triggering)
    requires !st.aborted
    ensures |r.dispatched| <= |st.dispatched| + |fired|
    ensures fired != [] ==> r.last.Some?
    decreases |fired|
  {
    if fired == [] then st
    else
      var prev := TriggerAll(st, fired[..|fired| - 1], cfg, minute);
      if prev.aborted then prev else TriggerOne(prev, fired[|fired| - 1], cfg.Module(fired[|fired| - 1]).settings, minute)
  }

  /** Once a call has raised, the rest of the tick's calls do not happen. */
  lemma {:induction false} AbortEndsTick(st: Triggering, a: seq<string>, b: seq<string>, cfg: Config, minute: nat)
    requires !st.aborted && TriggerAll(st, a, cfg, minute).aborted
    ensures TriggerAll(st, a + b, cfg, minute) == TriggerAll(st, a, cfg, minute)
    decreases |b|
  {
    if b == [] {
      assert a + b == a;
    } else {
      AbortEndsTick(st, a, b[..|b| - 1], cfg, minute);
      assert (a + b)[..|a + b| - 1] == a + b[..|b| - 1];
    }
  }

  /**
   * When every call of a tick is for one module at one minute, running the
   * same calls again dispatches nothing and changes nothing: only the first
   * call can get past the remembered key.
   */
  lemma {:induction false} RepeatedSingleModuleTickIsIdle(st: Triggering, fired: seq<string>, cfg: Config, minute: nat)
    requires !st.aborted && |fired| > 0
    requires forall k :: 0 <= k < |fired| ==> fired[k] == fired[0]
    requires !TriggerAll(st, fired, cfg, minute).aborted
    ensures TriggerAll(TriggerAll(st, fired, cfg, minute), fired, cfg, minute) == TriggerAll(st, fired, cfg, minute)
  {
    var after := TriggerAll(st, fired, cfg, minute);
    RememberedAfter(st, fired, cfg, minute);
    IdleWhenRemembered(after, fired, cfg, minute);
  }

  lemma {:induction false} RememberedAfter(st: Triggering, fired: seq<string>, cfg: Config, minute: nat)
    requires !st.aborted && |fired| > 0
    requires forall k :: 0 <= k < |fired| ==> fired[k] == fired[0]
    ensures TriggerAll(st, fired, cfg, minute).last == Some(TriggerKey(fired[0], minute))
    decreases |fired|
  {
    var pre := fired[..|fired| - 1];
    if |pre| > 0 {
      RememberedAfter(st, pre, cfg, minute);
    }
  }

  /**
   * A tick whose calls are all for `eye_relax`, starting from a different
   * remembered key, dispatches exactly one `eye_relax` call: the first call
   * gets past the key and every later one finds its key remembered.
   */
  lemma {:induction false} EyeRelaxDispatchedOnce(st: Triggering, fired: seq<string>, cfg: Config, minute: nat)
    requires !st.aborted && |fired| > 0
    requires forall k :: 0 <= k < |fired| ==> fired[k] == EyeRelax
    requires st.last != Some(TriggerKey(EyeRelax, minute))
    requires "flash_frequency" in cfg.eyeRelax.settings && "relax_duration" in cfg.eyeRelax.settings
    ensures var r := TriggerAll(st, fired, cfg, minute);
      !r.aborted && r.dispatched == st.dispatched + [EyeRelaxCall(cfg.eyeRelax.settings["flash_frequency"], cfg.eyeRelax.settings["relax_duration"])]
    decreases |fired|
  {
    var pre := fired[..|fired| - 1];
    if |pre| > 0 {
      EyeRelaxDispatchedOnce(st, pre, cfg, minute);
      RememberedAfter(st, pre, cfg, minute);
    }
  }

  lemma {:induction false} IdleWhenRemembered(st: Triggering, fired: seq<string>, cfg: Config, minute: nat)
    requires !st.aborted && |fired| > 0
    requires forall k :: 0 <= k < |fired| ==> fired[k] == fired[0]
    requires st.last == Some(TriggerKey(fired[0], minute))
    ensures TriggerAll(st, fired, cfg, minute) == st
    decreases |fired|
  {
    var pre := fired[..|fired| - 1];
    if |pre| > 0 {
      IdleWhenRemembered(st, pre, cfg, minute);
    }
  }

  /**
   * With one remembered key for both modules, a tick in which `eye_relax`
   * and `posture` both fire dispatches both of them again when it is re-run
   * in the same second: the `posture` key displaces the `eye_relax` key.
   */
  lemma RepeatedTwoModuleTickRedispatches(cfg: Config, minute: nat)
    requires "flash_frequency" in cfg.eyeRelax.settings && "relax_duration" in cfg.eyeRelax.settings
    requires "wait_duration" in cfg.posture.settings
    ensures var once := TriggerAll(Triggering(None, [], false), [EyeRelax, Posture], cfg, minute);
      && !once.aborted && |once.dispatched| == 2
      && |TriggerAll(once, [EyeRelax, Posture], cfg, minute).dispatched| == 4
  {
    var fired := [EyeRelax, Posture];
    assert fired[..1] == [EyeRelax];
    assert fired[..1][..0] == [];
    var st := Triggering(None, [], false);
    var one := TriggerOne(st, EyeRelax, cfg.eyeRelax.settings, minute);
    assert TriggerAll(st, [EyeRelax], cfg, minute) == one;
    assert TriggerKey(EyeRelax, minute) != TriggerKey(Posture, minute) by {
      assert TriggerKey(EyeRelax, minute)[0] == 'e';
      assert TriggerKey(Posture, minute)[0] == 'p';
    }
    var once := TriggerOne(one, Posture, cfg.posture.settings, minute);
    assert TriggerAll(st, fired, cfg, minute) == once;
    var again := TriggerOne(once, EyeRelax, cfg.eyeRelax.settings, minute);
    assert TriggerAll(once, [EyeRelax], cfg, minute) == again;
    assert TriggerAll(once, fired, cfg, minute) == TriggerOne(again, Posture, cfg.posture.settings, minute);
  }
}
