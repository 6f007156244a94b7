/**
 * The configuration store of src/config_manager.py: a stricter validator,
 * a built-in default configuration, loading that falls back to the default,
 * and saving that validates before it writes. The file is a value passed in
 * and, for saving, handed back.
 */
module ConfigManager {
  import opened PyValues
  import opened Reminders
  import opened KeyChecks

  /** The strict validator's checks: the required ones, then the dispatcher's parameters. */
  const StrictChecks: seq<Check> := RequiredChecks + [
    SettingKey(EyeRelax, "flash_frequency"), SettingKey(EyeRelax, "relax_duration"),
    SettingKey(Posture, "wait_duration")
  ]

  /**
   * `ConfigManager.validate_config`: the required-key chain, then
   * `eye_relax.flash_frequency`, `eye_relax.relax_duration` and
   * `posture.wait_duration`. Types and ranges are never checked.
   */
  function ValidateConfig(config: Json): (r: Outcome)
    ensures r == Pass <==>
      && ValidateRequired(config) == Pass
      && HasKey(config.fields[EyeRelax], "flash_frequency") && HasKey(config.fields[EyeRelax], "relax_duration")
      && HasKey(config.fields[Posture], "wait_duration")
    ensures r.Fail? ==> r.error.ValueError? || r.error.TypeError?
  {
    match ValidateRequired(config)
    case Fail(e) => Fail(e)
    case Pass =>
      var eyeChecked :=
        if HasKey(config, EyeRelax) then
          match RequireKey("flash_frequency", config.fields[EyeRelax], MissingInModuleConfig("flash_frequency", EyeRelax))
          case Fail(e) => Fail(e)
          case Pass => RequireKey("relax_duration", config.fields[EyeRelax], MissingInModuleConfig("relax_duration", EyeRelax))
        else Pass;
      match eyeChecked
      case Fail(e) => Fail(e)
      case Pass =>
        if HasKey(config, Posture) then
          RequireKey("wait_duration", config.fields[Posture], MissingInModuleConfig("wait_duration", Posture))
        else Pass
  }

  /** On a dict whose module entries can be searched, the first failing strict check is the error raised. */
  lemma StrictReportsFirstMissing(config: Json)
    requires config.JObj? && ModulesIterable(config.fields)
    ensures ValidateConfig(config) == Verdict(config.fields, StrictChecks)
  {
    var f := config.fields;
    var cs := StrictChecks;
    RequiredReportsFirstMissing(config);
    assert forall k :: 0 <= k < |RequiredChecks| ==> cs[k] == RequiredChecks[k];
    match FirstFailing(f, RequiredChecks)
    case Some(i) =>
      FirstFailingAt(f, cs, i);
    case None =>
      if !HasKey(f[EyeRelax], "flash_frequency") {
        FirstFailingAt(f, cs, 7);
      } else if !HasKey(f[EyeRelax], "relax_duration") {
        FirstFailingAt(f, cs, 8);
      } else if !HasKey(f[Posture], "wait_duration") {
        FirstFailingAt(f, cs, 9);
      } else {
        assert forall k :: 0 <= k < |cs| ==> Holds(f, cs[k]);
      }
  }

  /** `get_default_config()`: a 60-minute window, eye relax at 20 and 40, posture at 30, both enabled. */
  function DefaultConfig(): (r: Json)
    ensures ValidateConfig(r) == Pass
    ensures Typed(r).Some?
    ensures Typed(r).value.interval == 60
    ensures Typed(r).value.eyeRelax.enabled && Typed(r).value.eyeRelax.reminders == [20, 40]
    ensures Typed(r).value.posture.enabled && Typed(r).value.posture.reminders == [30]
  {
    JObj(map[
      "global_interval" := JInt(60),
      EyeRelax := JObj(map[
        "enabled" := JBool(true),
        "reminders" := JArr([JInt(20), JInt(40)]),
        "flash_frequency" := JFloat(0.5),
        "relax_duration" := JInt(20)
      ]),
      Posture := JObj(map[
        "enabled" := JBool(true),
        "reminders" := JArr([JInt(30)]),
        "wait_duration" := JInt(10)
      ])
    ])
  }

  /** Every offset of the default configuration lies inside its window. */
  lemma DefaultOffsetsInsideWindow()
    ensures forall name, r :: name in ModuleNames && r in Typed(DefaultConfig()).value.Module(name).reminders ==>
      0 <= r < Typed(DefaultConfig()).value.interval
  {
  }

  /**
   * `load_config()`: never None. A missing file, malformed JSON or a failed
   * check gives the default; a valid document is returned unchanged. Only a
   * TypeError from validating a document that cannot be searched escapes.
   */
  function LoadConfig(file: ConfigFile): (r: Result<Json>)
    ensures r.Ok? ==> ValidateConfig(r.value) == Pass
    ensures file.NoFile? || file.Malformed? ==> r == Ok(DefaultConfig())
    ensures file.Document? && ValidateConfig(file.doc) == Pass ==> r == Ok(file.doc)
    ensures r.Ok? && r.value != DefaultConfig() ==> file == Document(r.value)
    ensures r.Raise? <==> file.Document? && ValidateConfig(file.doc) == Fail(TypeError)
  {
    match file
    case NoFile => Ok(DefaultConfig())
    case Malformed => Ok(DefaultConfig())
    case Document(doc) =>
      match ValidateConfig(doc)
      case Pass => Ok(doc)
      case Fail(e) => if e.ValueError? then Ok(DefaultConfig()) else Raise(e)
  }

  /**
   * `save_config(config)`: False and the file untouched when a check fails;
   * otherwise the document is written and True returned. The result pairs
   * the returned flag with the file afterwards.
   */
  function SaveConfig(file: ConfigFile, config: Json): (r: Result<(bool, ConfigFile)>)
    ensures (r.Ok? && r.value.0) <==> ValidateConfig(config) == Pass
    ensures r.Ok? && r.value.0 ==> r.value.1 == Document(config)
    ensures r.Ok? && !r.value.0 ==> r.value.1 == file
    ensures r.Raise? ==> r.error == TypeError
  {
    match ValidateConfig(config)
    case Pass => Ok((true, Document(config)))
    case Fail(e) => if e.ValueError? then Ok((false, file)) else Raise(e)
  }

  /** Saving a valid configuration and loading it back yields that configuration. */
  lemma SaveThenLoad(file: ConfigFile, config: Json)
    requires ValidateConfig(config) == Pass
    ensures SaveConfig(file, config).Ok? && LoadConfig(SaveConfig(file, config).value.1) == Ok(config)
  {
  }

  /** Whatever the file holds, a loaded configuration passes the lenient validator of Remind2Rest.py too. */
  lemma LoadedIsRequiredValid(file: ConfigFile)
    requires LoadConfig(file).Ok?
    ensures ValidateRequired(LoadConfig(file).value) == Pass
  {
  }
}
