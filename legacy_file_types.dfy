/** The file-type helpers of the legacy library.  Its default-template
    `case` lists `YAML` without the colon, so the YAML file type matches no
    branch and falls into an error path that names an undefined variable. */
module LegacyFileTypes {
  import opened Tree
  import LegacyOptions
  import FileTypes
  import Text

  /** `config_file_type`: the upcased file type option, when it is supported. */
  function ConfigFileType(opts: seq<Entry>): (r: Result<Value>)
    ensures r.Ok? <==> LegacyOptions.FileType(opts).Ok? && LegacyOptions.FileType(opts).value in FileTypes.Supported
    ensures r.Ok? ==> r == LegacyOptions.FileType(opts)
    ensures r.Err? ==> r.error == ArgumentError
  {
    var t :- LegacyOptions.FileType(opts);
    if t in FileTypes.Supported then Ok(t) else Err(ArgumentError)
  }

  /** `config_file_template_default` as written: `:YAML` is compared with
      the `YAML` module, which no Symbol is an instance of, and the `else`
      branch then raises `NameError` on the undefined `type`. */
  function TemplateDefaultAsWritten(opts: seq<Entry>): Result<string>
  {
    var t :- ConfigFileType(opts);
    if t == Sym("JSON") then Ok("file_bare.erb")
    else if t in [Sym("INI"), Sym("JSONC"), Sym("TOML")] then Ok("file.erb")
    else Err(NameError)
  }

  /** `config_file_template_default` as intended: YAML uses the sectioned
      template, as it does in the current library. */
  function TemplateDefault(opts: seq<Entry>): Result<string>
  {
    var t :- ConfigFileType(opts);
    if t == Sym("JSON") then Ok("file_bare.erb")
    else if t in [Sym("INI"), Sym("JSONC"), Sym("TOML"), Sym("YAML")] then Ok("file.erb")
    else Err(NameError)
  }

  /** Every supported type gets a template from the corrected function, the
      same one the current library chooses; the as-written one differs
      exactly on YAML. */
  lemma TemplateAgreesWithCurrent(opts: seq<Entry>)
    ensures ConfigFileType(opts).Ok? ==> TemplateDefault(opts).Ok?
    ensures ConfigFileType(opts).Ok? ==>
      TemplateDefault(opts) == Ok(if ConfigFileType(opts).value == Sym("JSON") then "file_bare.erb" else "file.erb")
    ensures ConfigFileType(opts).Err? ==> TemplateDefault(opts) == Err(ArgumentError)
    ensures TemplateDefaultAsWritten(opts) != TemplateDefault(opts) <==>
      ConfigFileType(opts) == Ok(Sym("YAML"))
  {
  }

  /** The option `config_file_type: :yaml`. */
  lemma YamlHasNoTemplate()
    ensures var opts := [Entry(Sym("config_file_type"), Sym("yaml"))];
      TemplateDefaultAsWritten(opts) == Err(NameError) &&
      TemplateDefault(opts) == Ok("file.erb")
  {
    var opts := [Entry(Sym("config_file_type"), Sym("yaml"))];
    assert Find(opts, Sym("config_file_type")) == Some(0);
    assert Text.Upcase("yaml") == "YAML";
    assert ConfigFileType(opts) == Ok(Sym("YAML"));
  }
}
