/**
 * The reminder vocabulary shared by the tick schedulers: the two reminder
 * modules, a typed view of the configuration document, the minute and
 * countdown arithmetic of one tick, and the firing rule.
 */
module Reminders {
  import opened PyValues

  const EyeRelax := "eye_relax"
  const Posture := "posture"

  /** Modules in the order every loop of the daemons visits them. */
  const ModuleNames := [EyeRelax, Posture]

  /** `config[module]`: its flag, its minute offsets, and the whole dict for the dispatcher. */
  datatype ModuleConfig = ModuleConfig(enabled: bool, reminders: seq<int>, settings: map<string, Json>)

  /** The configuration a tick works on. */
  datatype Config = Config(interval: int, eyeRelax: ModuleConfig, posture: ModuleConfig) {
    /** `config[name]`; a name that is not a module reads as a disabled module with no offsets. */
    function Module(name: string): ModuleConfig {
      if name == EyeRelax then eyeRelax
      else if name == Posture then posture
      else ModuleConfig(false, [], map[])
    }
  }

  /** A notification call handed to the dispatcher. */
  datatype Dispatch =
    | EyeRelaxCall(flashFrequency: Json, relaxDuration: Json)
    | PostureCall(waitDuration: Json)

  /** A list read as integers: every element must be an integer. */
  function IntsOf(items: seq<Json>): (r: Option<seq<int>>)
    ensures r.Some? <==> forall k :: 0 <= k < |items| ==> items[k].JInt?
    ensures r.Some? ==> |r.value| == |items| && forall k :: 0 <= k < |items| ==> items[k] == JInt(r.value[k])
  {
    if forall k :: 0 <= k < |items| ==> items[k].JInt? then Some(seq(|items|, k requires 0 <= k < |items| => items[k].i))
    else None
  }

  /**
   * `config[module]` as a tick reads it: a boolean `enabled`, and, only when
   * it is set, a list of integer `reminders`; a disabled module's list is
   * never read and is taken as empty.
   */
  function ModuleOf(v: Json): (r: Option<ModuleConfig>)
    ensures r.Some? ==>
      && v.JObj? && r.value.settings == v.fields
      && "enabled" in v.fields && v.fields["enabled"] == JBool(r.value.enabled)
      && (r.value.enabled ==>
            "reminders" in v.fields && v.fields["reminders"].JArr?
            && IntsOf(v.fields["reminders"].items) == Some(r.value.reminders))
      && (!r.value.enabled ==> r.value.reminders == [])
    ensures r.Some? <==>
      && v.JObj? && "enabled" in v.fields && v.fields["enabled"].JBool?
      && (v.fields["enabled"].b ==>
            "reminders" in v.fields && v.fields["reminders"].JArr?
            && forall k :: 0 <= k < |v.fields["reminders"].items| ==> v.fields["reminders"].items[k].JInt?)
  {
    if v.JObj? && "enabled" in v.fields && v.fields["enabled"].JBool? then
      if !v.fields["enabled"].b then Some(ModuleConfig(false, [], v.fields))
      else if "reminders" in v.fields && v.fields["reminders"].JArr? then
        match IntsOf(v.fields["reminders"].items)
        case None => None
        case Some(rs) => Some(ModuleConfig(true, rs, v.fields))
      else None
    else None
  }

  /**
   * The typed reading of a configuration document: an integer
   * `global_interval`, and for each module a boolean `enabled` and a list of
   * integer `reminders`. Every value the tick reads is carried over unchanged.
   */
  function Typed(doc: Json): (r: Option<Config>)
    ensures r.Some? ==> doc.JObj? && "global_interval" in doc.fields && doc.fields["global_interval"] == JInt(r.value.interval)
    ensures r.Some? ==> forall name :: name in ModuleNames ==>
      name in doc.fields && ModuleOf(doc.fields[name]) == Some(r.value.Module(name))
    ensures r.Some? <==>
      && doc.JObj? && "global_interval" in doc.fields && doc.fields["global_interval"].JInt?
      && forall name :: name in ModuleNames ==> name in doc.fields && ModuleOf(doc.fields[name]).Some?
  {
    if doc.JObj? && "global_interval" in doc.fields && doc.fields["global_interval"].JInt?
       && EyeRelax in doc.fields && Posture in doc.fields
    then
      match (ModuleOf(doc.fields[EyeRelax]), ModuleOf(doc.fields[Posture]))
      case (Some(eye), Some(posture)) => Some(Config(doc.fields["global_interval"].i, eye, posture))
      case _ => None
    else None
  }

  /** `(hour*60 + minute) % interval`: the position of the wall clock inside the repeating window. */
  function ElapsedMinute(hour: int, minute: int, interval: int): (e: int)
    requires interval != 0
    ensures interval > 0 ==> 0 <= e < interval
  {
    PyMod(hour * 60 + minute, interval)
  }

  /** `((reminder - e) % interval) * 60 - second`: signed seconds until `reminder` next comes round. */
  function SecondsUntil(reminder: int, e: int, second: int, interval: int): (t: int)
    requires interval != 0
    ensures interval > 0 ==> -second <= t <= (interval - 1) * 60 - second
    ensures interval < 0 ==> t <= -second
  {
    PyMod(reminder - e, interval) * 60 - second
  }

  /** The countdown is negative only inside the very minute of the offset, after its first second. */
  lemma CountdownNegativeOnlyInTargetMinute(reminder: int, e: int, second: int, interval: int)
    requires interval > 0 && 0 <= second < 60
    ensures SecondsUntil(reminder, e, second, interval) < 0 <==> PyMod(reminder - e, interval) == 0 && second > 0
  {
  }

  /** One enabled offset, seen during one tick. */
  datatype Candidate = Candidate(name: string, reminder: int, seconds: int)

  /** The candidates one module's reminder list contributes, in list order. */
  function CandsOf(name: string, rs: seq<int>, e: int, second: int, interval: int): (cs: seq<Candidate>)
    requires interval != 0
    ensures |cs| == |rs|
  {
    seq(|rs|, k requires 0 <= k < |rs| => Candidate(name, rs[k], SecondsUntil(rs[k], e, second, interval)))
  }

  function ModuleCands(cfg: Config, name: string, e: int, second: int): seq<Candidate>
    requires cfg.interval != 0
  {
    var mc := cfg.Module(name);
    if mc.enabled then CandsOf(name, mc.reminders, e, second, cfg.interval) else []
  }

  /** The candidates of the modules in `names`, module after module. */
  function CandidatesOver(cfg: Config, names: seq<string>, e: int, second: int): seq<Candidate>
    requires cfg.interval != 0
    decreases |names|
  {
    if names == [] then []
    else CandidatesOver(cfg, names[..|names| - 1], e, second) + ModuleCands(cfg, names[|names| - 1], e, second)
  }

  /** Every (module, offset) pair a tick visits: `eye_relax` first, then `posture`, each in list order. */
  function Candidates(cfg: Config, e: int, second: int): (r: seq<Candidate>)
    requires cfg.interval != 0
    ensures |r| == (if cfg.eyeRelax.enabled then |cfg.eyeRelax.reminders| else 0)
                 + (if cfg.posture.enabled then |cfg.posture.reminders| else 0)
  {
    assert ModuleNames[..1][..0] == [];
    assert ModuleNames[..1] == [EyeRelax];
    assert CandidatesOver(cfg, [EyeRelax], e, second) == ModuleCands(cfg, EyeRelax, e, second);
    CandidatesOver(cfg, ModuleNames, e, second)
  }

  lemma CandidatesSplit(cfg: Config, e: int, second: int)
    requires cfg.interval != 0
    ensures Candidates(cfg, e, second) == ModuleCands(cfg, EyeRelax, e, second) + ModuleCands(cfg, Posture, e, second)
  {
    assert ModuleNames[..1][..0] == [];
    assert ModuleNames[..1] == [EyeRelax];
    assert CandidatesOver(cfg, [EyeRelax], e, second) == ModuleCands(cfg, EyeRelax, e, second);
    assert ModuleNames[..|ModuleNames| - 1] == [EyeRelax];
  }

  /** Each candidate belongs to an enabled module, carries one of its offsets and the countdown to it. */
  lemma {:induction false} CandidatesFromEnabledModules(cfg: Config, e: int, second: int)
    requires cfg.interval != 0
    ensures forall c :: c in Candidates(cfg, e, second) ==>
      c.name in ModuleNames && cfg.Module(c.name).enabled && c.reminder in cfg.Module(c.name).reminders
      && c.seconds == SecondsUntil(c.reminder, e, second, cfg.interval)
  {
    CandidatesSplit(cfg, e, second);
    forall c | c in Candidates(cfg, e, second)
      ensures c.name in ModuleNames && cfg.Module(c.name).enabled && c.reminder in cfg.Module(c.name).reminders
      ensures c.seconds == SecondsUntil(c.reminder, e, second, cfg.interval)
    {
      if c in ModuleCands(cfg, EyeRelax, e, second) {
        var k :| 0 <= k < |ModuleCands(cfg, EyeRelax, e, second)| && ModuleCands(cfg, EyeRelax, e, second)[k] == c;
        assert cfg.eyeRelax.reminders[k] == c.reminder;
      } else {
        assert c in ModuleCands(cfg, Posture, e, second);
        var k :| 0 <= k < |ModuleCands(cfg, Posture, e, second)| && ModuleCands(cfg, Posture, e, second)[k] == c;
        assert cfg.posture.reminders[k] == c.reminder;
      }
    }
  }

  /** The firing rule: the offset is the elapsed minute and the tick is in second 0. */
  predicate FiresNow(c: Candidate, e: int, second: int) {
    c.reminder == e && second < 1
  }

  /** The modules a tick triggers, one entry per matching offset, in visiting order. */
  function Fires(cs: seq<Candidate>, e: int, second: int): (r: seq<string>)
    ensures |r| <= |cs|
    decreases |cs|
  {
    if cs == [] then []
    else Fires(cs[..|cs| - 1], e, second) + (if FiresNow(cs[|cs| - 1], e, second) then [cs[|cs| - 1].name] else [])
  }

  lemma {:induction false} FiresAppend(a: seq<Candidate>, b: seq<Candidate>, e: int, second: int)
    ensures Fires(a + b, e, second) == Fires(a, e, second) + Fires(b, e, second)
    decreases |b|
  {
    if b == [] {
      assert a + b == a;
    } else {
      var b' := b[..|b| - 1];
      FiresAppend(a, b', e, second);
      assert (a + b)[..|a + b| - 1] == a + b' && (a + b)[|a + b| - 1] == b[|b| - 1];
      assert Fires(b, e, second) == Fires(b', e, second) + (if FiresNow(b[|b| - 1], e, second) then [b[|b| - 1].name] else []);
    }
  }

  /** `n` copies of `x`. */
  function Repeat(x: string, n: nat): (r: seq<string>)
    ensures |r| == n && forall k :: 0 <= k < n ==> r[k] == x
  {
    seq(n, k => x)
  }

  /** How many entries of `rs` equal `e`. */
  function CountOf(rs: seq<int>, e: int): nat
    decreases |rs|
  {
    if rs == [] then 0 else CountOf(rs[..|rs| - 1], e) + (if rs[|rs| - 1] == e then 1 else 0)
  }

  lemma {:induction false} CountOfPositive(rs: seq<int>, e: int)
    ensures CountOf(rs, e) > 0 <==> e in rs
    decreases |rs|
  {
    if rs != [] {
      CountOfPositive(rs[..|rs| - 1], e);
      assert rs == rs[..|rs| - 1] + [rs[|rs| - 1]];
    }
  }

  lemma {:induction false} FiresOfModule(name: string, rs: seq<int>, e: int, second: int, interval: int)
    requires interval != 0
    ensures Fires(CandsOf(name, rs, e, second, interval), e, second)
      == if second < 1 then Repeat(name, CountOf(rs, e)) else []
    decreases |rs|
  {
    if rs != [] {
      var rs' := rs[..|rs| - 1];
      FiresOfModule(name, rs', e, second, interval);
      var cs := CandsOf(name, rs, e, second, interval);
      assert cs[..|cs| - 1] == CandsOf(name, rs', e, second, interval);
    }
  }

  /**
   * Exactly what a tick triggers: `eye_relax` once per offset equal to the
   * elapsed minute, then `posture` likewise, and only in second 0 and for
   * enabled modules. Duplicate offsets trigger repeatedly.
   */
  lemma TickTriggers(cfg: Config, e: int, second: int)
    requires cfg.interval != 0
    ensures Fires(Candidates(cfg, e, second), e, second)
      == (if second < 1 && cfg.eyeRelax.enabled then Repeat(EyeRelax, CountOf(cfg.eyeRelax.reminders, e)) else [])
       + (if second < 1 && cfg.posture.enabled then Repeat(Posture, CountOf(cfg.posture.reminders, e)) else [])
  {
    CandidatesSplit(cfg, e, second);
    FiresAppend(ModuleCands(cfg, EyeRelax, e, second), ModuleCands(cfg, Posture, e, second), e, second);
    FiresOfModule(EyeRelax, cfg.eyeRelax.reminders, e, second, cfg.interval);
    FiresOfModule(Posture, cfg.posture.reminders, e, second, cfg.interval);
  }

  /** A module is triggered in a tick iff it is enabled, one of its offsets is the elapsed minute, and the second is 0. */
  lemma ModuleFiresIff(cfg: Config, name: string, e: int, second: int)
    requires cfg.interval != 0 && name in ModuleNames && 0 <= second
    ensures name in Fires(Candidates(cfg, e, second), e, second)
      <==> cfg.Module(name).enabled && e in cfg.Module(name).reminders && second == 0
  {
    TickTriggers(cfg, e, second);
    CountOfPositive(cfg.eyeRelax.reminders, e);
    CountOfPositive(cfg.posture.reminders, e);
    var fs := Fires(Candidates(cfg, e, second), e, second);
    var eyes := if second < 1 && cfg.eyeRelax.enabled then Repeat(EyeRelax, CountOf(cfg.eyeRelax.reminders, e)) else [];
    var postures := if second < 1 && cfg.posture.enabled then Repeat(Posture, CountOf(cfg.posture.reminders, e)) else [];
    assert fs == eyes + postures;
    if name == EyeRelax {
      assert EyeRelax !in postures;
      if cfg.eyeRelax.enabled && e in cfg.eyeRelax.reminders && second == 0 { assert eyes[0] == EyeRelax; }
    } else {
      assert Posture !in eyes;
      if cfg.posture.enabled && e in cfg.posture.reminders && second == 0 { assert postures[0] == Posture; }
    }
  }
}
