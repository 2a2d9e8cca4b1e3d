/** The `option_*` readers of the legacy library.  They read the same option
    names as the current ones; every failure is an `ArgumentError`, and the
    path match key may not be an Array. */
module LegacyOptions {
  import opened Text
  import opened Tree
  import opened Utils
  import Options

  /** `option_config_file_type`: a Symbol or String, returned upcased as a Symbol. */
  function FileType(opts: seq<Entry>): (r: Result<Value>)
    ensures var t := Options.Get(opts, "config_file_type", Nil);
      r == if t.Str? || t.Sym? then Ok(Sym(Upcase(ToS(t)))) else Err(ArgumentError)
  {
    var t := Options.Get(opts, "config_file_type", Nil);
    if t.Sym? || t.Str? then Ok(Sym(Upcase(ToS(t)))) else Err(ArgumentError)
  }

  /** `option_config_base_path`. */
  function BasePath(opts: seq<Entry>): (r: Result<Option<string>>)
    ensures var b := Options.Get(opts, "config_base_path", Nil);
      r == if !Truthy(b) then Ok(None) else if b.Str? then Ok(Some(b.s)) else Err(ArgumentError)
  {
    var b := Options.Get(opts, "config_base_path", Nil);
    if !Truthy(b) then Ok(None) else if b.Str? then Ok(Some(b.s)) else Err(ArgumentError)
  }

  /** `option_config_path_override`. */
  function PathOverride(opts: seq<Entry>): (r: Result<Option<seq<Value>>>)
    ensures var p := Options.Get(opts, "config_path_override", Nil);
      r == if !Truthy(p) then Ok(None) else if p.List? then Ok(Some(p.items)) else Err(ArgumentError)
  {
    var p := Options.Get(opts, "config_path_override", Nil);
    if !Truthy(p) then Ok(None) else if p.List? then Ok(Some(p.items)) else Err(ArgumentError)
  }

  /** `option_config_path_type`: `:hash` by default, one of the allowed four. */
  function PathTypeOf(opts: seq<Entry>): (r: Result<Options.PathType>)
    ensures !HasKey(opts, Sym("config_path_type")) ==> r == Ok(Options.HashPath)
    ensures r.Ok? ==> Options.PathTypeSymbol(r.value) == Options.Get(opts, "config_path_type", Sym("hash"))
    ensures r.Err? <==> forall p: Options.PathType :: Options.PathTypeSymbol(p) != Options.Get(opts, "config_path_type", Sym("hash"))
    ensures r.Err? ==> r.error == ArgumentError
  {
    match Options.PathTypeOf(opts)
    case Ok(p) => Ok(p)
    case Err(_) => Err(ArgumentError)
  }

  /** `option_config_path_match_key`: only a String or a Symbol. */
  function PathMatchKey(opts: seq<Entry>): (r: Result<Value>)
    ensures var k := Options.Get(opts, "config_path_match_key", Nil);
      r == if k.Str? || k.Sym? then Ok(k) else Err(ArgumentError)
  {
    var k := Options.Get(opts, "config_path_match_key", Nil);
    if k.Str? || k.Sym? then Ok(k) else Err(ArgumentError)
  }

  /** The readers that insist on a truthy value. */
  function Required(opts: seq<Entry>, name: string): (r: Result<Value>)
    ensures var v := Options.Get(opts, name, Nil); r == if Truthy(v) then Ok(v) else Err(ArgumentError)
  {
    var v := Options.Get(opts, name, Nil);
    if Truthy(v) then Ok(v) else Err(ArgumentError)
  }

  function PathMatchValue(opts: seq<Entry>): Result<Value>
  {
    Required(opts, "config_path_match_value")
  }

  function PathContainedKey(opts: seq<Entry>): Result<Value>
  {
    Required(opts, "config_path_contained_key")
  }

  function MatchKey(opts: seq<Entry>): Result<Value>
  {
    Required(opts, "config_match_key")
  }

  function MatchValue(opts: seq<Entry>): Result<Value>
  {
    Required(opts, "config_match_value")
  }

  /** `option_config_properties_skip`. */
  function PropertiesSkip(opts: seq<Entry>): (r: Result<Option<seq<Value>>>)
    ensures var s := Options.Get(opts, "config_properties_skip", Nil);
      r == if !Truthy(s) then Ok(None) else if s.List? then Ok(Some(s.items)) else Err(ArgumentError)
  {
    var s := Options.Get(opts, "config_properties_skip", Nil);
    if !Truthy(s) then Ok(None) else if s.List? then Ok(Some(s.items)) else Err(ArgumentError)
  }

  /** `option_property_name_gsub`: an Array of exactly two Strings. */
  function PropertyNameGsub(opts: seq<Entry>): (r: Result<Option<(string, string)>>)
    ensures var g := Options.Get(opts, "property_name_gsub", Nil);
      r == if !Truthy(g) then Ok(None)
           else if Options.IsGsubPair(g) then Ok(Some((g.items[0].s, g.items[1].s)))
           else Err(ArgumentError)
  {
    var g := Options.Get(opts, "property_name_gsub", Nil);
    if !Truthy(g) then Ok(None)
    else if Options.IsGsubPair(g) then Ok(Some((g.items[0].s, g.items[1].s)))
    else Err(ArgumentError)
  }

  /** `option_property_translation_matrix`. */
  function TranslationMatrix(opts: seq<Entry>): (r: Result<Option<seq<Entry>>>)
    ensures var m := Options.Get(opts, "property_translation_matrix", Nil);
      r == if !Truthy(m) then Ok(None) else if m.Map? then Ok(Some(m.entries)) else Err(ArgumentError)
  {
    var m := Options.Get(opts, "property_translation_matrix", Nil);
    if !Truthy(m) then Ok(None) else if m.Map? then Ok(Some(m.entries)) else Err(ArgumentError)
  }

  /** `resource_options`: overrides merged over options; `{}` without options;
      options that are not a Hash are an `ArgumentError`. */
  function ResourceOptions(options: Value, overrides: Value): (r: Result<seq<Entry>>)
    ensures !Truthy(overrides) && !Truthy(options) ==> r == Ok([])
    ensures !Truthy(overrides) && options.Map? ==> r == Ok(options.entries)
    ensures Truthy(overrides) && options.Map? && overrides.Map? ==> r == Ok(Merge(options.entries, overrides.entries))
    ensures Truthy(overrides) && options.Map? && !overrides.Map? ==> r == Err(TypeError)
    ensures Truthy(overrides) && !options.Map? ==> r == Err(NameError)
    ensures !Truthy(overrides) && Truthy(options) && !options.Map? ==> r == Err(ArgumentError)
  {
    match Options.ResourceOptions(options, overrides)
    case Err(Malformed(_)) => Err(ArgumentError)
    case r => r
  }

  /** The legacy readers accept exactly what the current ones accept, except
      that an Array match key is refused, and they fail with `ArgumentError`
      wherever the current ones report a malformed or missing option. */
  lemma AgreesWithCurrent(opts: seq<Entry>)
    ensures FileType(opts).Ok? == Options.FileType(opts).Ok? && (FileType(opts).Ok? ==> FileType(opts) == Options.FileType(opts))
    ensures PathTypeOf(opts).Ok? ==> PathTypeOf(opts) == Options.PathTypeOf(opts)
    ensures PathMatchKey(opts).Ok? ==> PathMatchKey(opts) == Options.PathMatchKey(opts)
    ensures Options.PathMatchKey(opts).Ok? && !Options.PathMatchKey(opts).value.List? ==> PathMatchKey(opts).Ok?
    ensures Options.PathMatchKey(opts).Ok? && Options.PathMatchKey(opts).value.List? ==> PathMatchKey(opts) == Err(ArgumentError)
    ensures PropertyNameGsub(opts).Ok? <==> Options.PropertyNameGsub(opts).Ok?
    ensures TranslationMatrix(opts).Ok? ==> TranslationMatrix(opts) == Options.TranslationMatrix(opts)
  {
  }
}
