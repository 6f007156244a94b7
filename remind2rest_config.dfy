/**
 * Loading the configuration in Remind2Rest.py: `validate_config` is the
 * required-key chain of KeyChecks, and `load_config` turns a missing file,
 * malformed JSON or a failed check into None.
 */
module Remind2RestConfig {
  import opened PyValues
  import opened Reminders
  import opened KeyChecks

  /**
   * `load_config()`: None when the file is missing, is not JSON, or lacks a
   * required key; otherwise the parsed document itself. A TypeError from
   * validating a document that cannot be searched is not caught and escapes.
   */
  function LoadConfig(file: ConfigFile): (r: Result<Option<Json>>)
    ensures r == Ok(None) <==>
      || file.NoFile? || file.Malformed?
      || (file.Document? && ValidateRequired(file.doc).Fail? && ValidateRequired(file.doc).error.ValueError?)
    ensures (r.Ok? && r.value.Some?) <==> file.Document? && ValidateRequired(file.doc) == Pass
    ensures r.Ok? && r.value.Some? ==> r.value.value == file.doc
    ensures r.Raise? ==> r.error == TypeError
  {
    match file
    case NoFile => Ok(None)
    case Malformed => Ok(None)
    case Document(doc) =>
      match ValidateRequired(doc)
      case Pass => Ok(Some(doc))
      case Fail(e) => if e.ValueError? then Ok(None) else Raise(e)
  }

  /**
   * A document the tick can read as typed values passes validation exactly
   * when each module also carries a `reminders` key: the tick never reads
   * the list of a disabled module, the validator requires it regardless.
   */
  lemma TypedIsValid(doc: Json)
    requires Typed(doc).Some?
    ensures ValidateRequired(doc) == Pass <==>
      forall name :: name in ModuleNames ==> "reminders" in doc.fields[name].fields
  {
    var cfg := Typed(doc).value;
    assert ModuleOf(doc.fields[EyeRelax]) == Some(cfg.Module(EyeRelax));
    assert ModuleOf(doc.fields[Posture]) == Some(cfg.Module(Posture));
  }
}
