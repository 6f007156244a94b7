/**
 * Key-presence validation of a configuration document. Both validators in
 * the repository run the same chain of `if key not in ...: raise ValueError`
 * checks first; this module holds that chain and a declarative reading of
 * it as an ordered list of checks of which the first failing one is reported.
 */
module KeyChecks {
  import opened PyValues
  import opened Reminders

  function MissingInConfig(key: string): string {
    "Missing '" + key + "' in config"
  }

  function MissingForModule(key: string, mod: string): string {
    "Missing '" + key + "' for module " + mod
  }

  function MissingInModuleConfig(key: string, mod: string): string {
    "Missing '" + key + "' in " + mod + " config"
  }

  /** `key in container` evaluates to True. */
  predicate HasKey(container: Json, key: string) {
    PyIn(key, container) == Ok(true)
  }

  /** `if key not in container: raise ValueError(msg)`. */
  function RequireKey(key: string, container: Json, msg: string): (r: Outcome)
    ensures r == Pass <==> HasKey(container, key)
    ensures r.Fail? && container.JObj? ==> r.error == ValueError(msg)
  {
    match PyIn(key, container)
    case Raise(e) => Fail(e)
    case Ok(present) => if present then Pass else Fail(ValueError(msg))
  }

  /** One round of the module loop: the module key, then its `enabled`, then its `reminders`. */
  function RequireModule(config: Json, mod: string): (r: Outcome)
    ensures r == Pass <==>
      && HasKey(config, mod) && config.JObj? && mod in config.fields
      && HasKey(config.fields[mod], "enabled") && HasKey(config.fields[mod], "reminders")
  {
    match RequireKey(mod, config, MissingInConfig(mod))
    case Fail(e) => Fail(e)
    case Pass =>
      match PyIndex(config, mod)
      case Raise(e) => Fail(e)
      case Ok(settings) =>
        match RequireKey("enabled", settings, MissingForModule("enabled", mod))
        case Fail(e) => Fail(e)
        case Pass => RequireKey("reminders", settings, MissingForModule("reminders", mod))
  }

  /**
   * The checks both validators start with: `global_interval`, then for
   * `eye_relax` and then `posture` the module, its `enabled` and its
   * `reminders`. Nothing is checked about types or ranges.
   */
  function ValidateRequired(config: Json): (r: Outcome)
    ensures r == Pass <==>
      && config.JObj? && "global_interval" in config.fields
      && forall name :: name in ModuleNames ==>
           name in config.fields && HasKey(config.fields[name], "enabled") && HasKey(config.fields[name], "reminders")
    ensures r.Fail? ==> r.error.ValueError? || r.error.TypeError?
  {
    match RequireKey("global_interval", config, MissingInConfig("global_interval"))
    case Fail(e) => Fail(e)
    case Pass =>
      match RequireModule(config, EyeRelax)
      case Fail(e) => Fail(e)
      case Pass => RequireModule(config, Posture)
  }

  /** One key-presence check, and the message of the ValueError it raises. */
  datatype Check =
    | TopKey(key: string)
    | ModuleKey(mod: string, key: string)
    | SettingKey(mod: string, key: string)
  {
    function Message(): string {
      match this
      case TopKey(k) => MissingInConfig(k)
      case ModuleKey(m, k) => MissingForModule(k, m)
      case SettingKey(m, k) => MissingInModuleConfig(k, m)
    }
  }

  predicate Holds(fields: map<string, Json>, c: Check) {
    match c
    case TopKey(k) => k in fields
    case ModuleKey(m, k) => m in fields && HasKey(fields[m], k)
    case SettingKey(m, k) => m in fields && HasKey(fields[m], k)
  }

  /** The required checks, in the order the code performs them. */
  const RequiredChecks: seq<Check> := [
    TopKey("global_interval"),
    TopKey(EyeRelax), ModuleKey(EyeRelax, "enabled"), ModuleKey(EyeRelax, "reminders"),
    TopKey(Posture), ModuleKey(Posture, "enabled"), ModuleKey(Posture, "reminders")
  ]

  /** The index of the first check that does not hold, if any. */
  function FirstFailing(fields: map<string, Json>, checks: seq<Check>): (r: Option<nat>)
    ensures r.None? <==> forall k :: 0 <= k < |checks| ==> Holds(fields, checks[k])
    ensures r.Some? ==>
      && r.value < |checks| && !Holds(fields, checks[r.value])
      && forall k :: 0 <= k < r.value ==> Holds(fields, checks[k])
    decreases |checks|
  {
    if checks == [] then None
    else if !Holds(fields, checks[0]) then Some(0)
    else match FirstFailing(fields, checks[1..])
      case None => None
      case Some(k) => Some(k + 1)
  }

  lemma FirstFailingAt(fields: map<string, Json>, checks: seq<Check>, i: nat)
    requires i < |checks| && !Holds(fields, checks[i])
    requires forall k :: 0 <= k < i ==> Holds(fields, checks[k])
    ensures FirstFailing(fields, checks) == Some(i)
  {
  }

  /** What a validator reports for an ordered list of checks: the first failure's message. */
  function Verdict(fields: map<string, Json>, checks: seq<Check>): Outcome {
    match FirstFailing(fields, checks)
    case None => Pass
    case Some(k) => Fail(ValueError(checks[k].Message()))
  }

  /** A value on which `key in value` does not raise. */
  predicate Iterable(v: Json) {
    v.JObj? || v.JArr? || v.JStr?
  }

  /** The modules present in `fields` are all dicts, lists or strings. */
  predicate ModulesIterable(fields: map<string, Json>) {
    forall name :: name in ModuleNames && name in fields ==> Iterable(fields[name])
  }

  /**
   * On a dict whose module entries can be searched, the required checks run
   * in order and the first one that fails is the ValueError raised.
   */
  lemma RequiredReportsFirstMissing(config: Json)
    requires config.JObj? && ModulesIterable(config.fields)
    ensures ValidateRequired(config) == Verdict(config.fields, RequiredChecks)
  {
    var f := config.fields;
    var cs := RequiredChecks;
    if "global_interval" !in f {
      FirstFailingAt(f, cs, 0);
    } else if EyeRelax !in f {
      FirstFailingAt(f, cs, 1);
    } else if !HasKey(f[EyeRelax], "enabled") {
      FirstFailingAt(f, cs, 2);
    } else if !HasKey(f[EyeRelax], "reminders") {
      FirstFailingAt(f, cs, 3);
    } else {
      PostureReportsFirstMissing(config);
    }
  }

  /** The same once the interval and the eye-relax keys are present: the posture checks decide. */
  lemma PostureReportsFirstMissing(config: Json)
    requires config.JObj? && ModulesIterable(config.fields)
    requires forall k :: 0 <= k < 4 ==> Holds(config.fields, RequiredChecks[k])
    ensures ValidateRequired(config) == Verdict(config.fields, RequiredChecks)
  {
    var f := config.fields;
    var cs := RequiredChecks;
    assert Holds(f, cs[0]) && Holds(f, cs[1]) && Holds(f, cs[2]) && Holds(f, cs[3]);
    if Posture !in f {
      FirstFailingAt(f, cs, 4);
    } else if !HasKey(f[Posture], "enabled") {
      FirstFailingAt(f, cs, 5);
    } else if !HasKey(f[Posture], "reminders") {
      FirstFailingAt(f, cs, 6);
    } else {
      assert forall k :: 0 <= k < |cs| ==> Holds(f, cs[k]);
    }
  }
}
