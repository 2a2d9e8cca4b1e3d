/** The `option_*` readers of the current library: each fetches one entry of
    the resource's merged options Hash (keys are Symbols), applies its default
    and checks its type. */
module Options {
  import opened Text
  import opened Tree
  import opened Utils

  /** `resource_options.fetch(name, d)`. */
  function Get(opts: seq<Entry>, name: string, d: Value): (r: Value)
    ensures HasKey(opts, Sym(name)) ==> r == Lookup(opts, Sym(name))
    ensures !HasKey(opts, Sym(name)) ==> r == d
  {
    if HasKey(opts, Sym(name)) then Lookup(opts, Sym(name)) else d
  }

  /** The four path types `ALLOWED_PATH_TYPES` permits. */
  datatype PathType = HashPath | HashContained | ArrayPath | ArrayContained

  function PathTypeSymbol(p: PathType): Value
  {
    match p
    case HashPath => Sym("hash")
    case HashContained => Sym("hash_contained")
    case ArrayPath => Sym("array")
    case ArrayContained => Sym("array_contained")
  }

  /** `option_config_file_type`: a String or Symbol, returned upcased as a Symbol. */
  function FileType(opts: seq<Entry>): (r: Result<Value>)
    ensures var t := Get(opts, "config_file_type", Nil);
      r.Ok? <==> t.Str? || t.Sym?
    ensures var t := Get(opts, "config_file_type", Nil);
      r.Ok? ==> r.value == Sym(Upcase(ToS(t)))
    ensures r.Err? ==> r.error == Malformed("config_file_type")
  {
    var t := Get(opts, "config_file_type", Nil);
    var cs := [StringClass, SymbolClass];
    assert t.Str? ==> IsA(t, cs[0]);
    assert t.Sym? ==> IsA(t, cs[1]);
    if MultiIsA(t, cs) then Ok(Sym(Upcase(ToS(t))))
    else Err(Malformed("config_file_type"))
  }

  /** `option_config_base_path`: absent or falsy is nil, otherwise a String. */
  function BasePath(opts: seq<Entry>): (r: Result<Option<string>>)
    ensures var b := Get(opts, "config_base_path", Nil);
      r == if !Truthy(b) then Ok(None) else if b.Str? then Ok(Some(b.s)) else Err(Malformed("config_base_path"))
  {
    var b := Get(opts, "config_base_path", Nil);
    if !Truthy(b) then Ok(None)
    else if b.Str? then Ok(Some(b.s))
    else Err(Malformed("config_base_path"))
  }

  /** `option_config_path_override`: absent or falsy is nil, otherwise an Array. */
  function PathOverride(opts: seq<Entry>): (r: Result<Option<seq<Value>>>)
    ensures var p := Get(opts, "config_path_override", Nil);
      r == if !Truthy(p) then Ok(None) else if p.List? then Ok(Some(p.items)) else Err(Malformed("config_path_override"))
  {
    var p := Get(opts, "config_path_override", Nil);
    if !Truthy(p) then Ok(None)
    else if p.List? then Ok(Some(p.items))
    else Err(Malformed("config_path_override"))
  }

  /** `option_config_path_type`: `:hash` when absent, and one of the four allowed Symbols. */
  function PathTypeOf(opts: seq<Entry>): (r: Result<PathType>)
    ensures !HasKey(opts, Sym("config_path_type")) ==> r == Ok(HashPath)
    ensures r.Ok? ==> PathTypeSymbol(r.value) == Get(opts, "config_path_type", Sym("hash"))
    ensures r.Err? <==> forall p: PathType :: PathTypeSymbol(p) != Get(opts, "config_path_type", Sym("hash"))
    ensures r.Err? ==> r.error == Malformed("config_path_type")
  {
    var t := Get(opts, "config_path_type", Sym("hash"));
    if t == Sym("hash") then Ok(HashPath)
    else if t == Sym("hash_contained") then Ok(HashContained)
    else if t == Sym("array") then Ok(ArrayPath)
    else if t == Sym("array_contained") then Ok(ArrayContained)
    else Err(Malformed("config_path_type"))
  }

  /** `option_config_path_match_key`: a String, Symbol or Array; anything
      else, nil included, is malformed. */
  function PathMatchKey(opts: seq<Entry>): (r: Result<Value>)
    ensures var k := Get(opts, "config_path_match_key", Nil);
      r == if k.Str? || k.Sym? || k.List? then Ok(k) else Err(Malformed("config_path_match_key"))
    ensures r.Ok? ==> Truthy(r.value)
  {
    var k := Get(opts, "config_path_match_key", Nil);
    var cs := [StringClass, SymbolClass, ArrayClass];
    assert k.Str? ==> IsA(k, cs[0]);
    assert k.Sym? ==> IsA(k, cs[1]);
    assert k.List? ==> IsA(k, cs[2]);
    if MultiIsA(k, cs) then Ok(k) else Err(Malformed("config_path_match_key"))
  }

  /** The shape of the readers that insist on a truthy value. */
  function Required(opts: seq<Entry>, name: string): (r: Result<Value>)
    ensures var v := Get(opts, name, Nil); r == if Truthy(v) then Ok(v) else Err(NotDefined(name))
  {
    var v := Get(opts, name, Nil);
    if Truthy(v) then Ok(v) else Err(NotDefined(name))
  }

  /** `option_config_path_match_value`. */
  function PathMatchValue(opts: seq<Entry>): Result<Value>
  {
    Required(opts, "config_path_match_value")
  }

  /** `option_config_path_contained_key`. */
  function PathContainedKey(opts: seq<Entry>): Result<Value>
  {
    Required(opts, "config_path_contained_key")
  }

  /** `option_config_match_key`. */
  function MatchKey(opts: seq<Entry>): Result<Value>
  {
    Required(opts, "config_match_key")
  }

  /** `option_config_match_value`. */
  function MatchValue(opts: seq<Entry>): Result<Value>
  {
    Required(opts, "config_match_value")
  }

  /** `option_config_properties_skip`: absent or falsy is nil, otherwise an Array. */
  function PropertiesSkip(opts: seq<Entry>): (r: Result<Option<seq<Value>>>)
    ensures var s := Get(opts, "config_properties_skip", Nil);
      r == if !Truthy(s) then Ok(None) else if s.List? then Ok(Some(s.items)) else Err(Malformed("config_properties_skip"))
  {
    var s := Get(opts, "config_properties_skip", Nil);
    if !Truthy(s) then Ok(None)
    else if s.List? then Ok(Some(s.items))
    else Err(Malformed("config_properties_skip"))
  }

  /** The gsub option is a pair of Strings. */
  predicate IsGsubPair(g: Value)
  {
    g.List? && |g.items| == 2 && g.items[0].Str? && g.items[1].Str?
  }

  /** `option_property_name_gsub` as written: the error it means to raise is
      built from `property_name_gsub`, a name nothing defines, so a malformed
      value raises `NameError`. */
  function PropertyNameGsubAsWritten(opts: seq<Entry>): (r: Result<Option<(string, string)>>)
    ensures var g := Get(opts, "property_name_gsub", Nil);
      r.Err? <==> Truthy(g) && !IsGsubPair(g)
    ensures r.Err? ==> r.error == NameError
  {
    var g := Get(opts, "property_name_gsub", Nil);
    if !Truthy(g) then Ok(None)
    else if IsGsubPair(g) then Ok(Some((g.items[0].s, g.items[1].s)))
    else Err(NameError)
  }

  /** `option_property_name_gsub` as intended: absent or falsy is nil, an
      Array of exactly two Strings is the `[from, to]` pair, anything else is
      malformed. */
  function PropertyNameGsub(opts: seq<Entry>): (r: Result<Option<(string, string)>>)
    ensures var g := Get(opts, "property_name_gsub", Nil);
      r == if !Truthy(g) then Ok(None)
           else if IsGsubPair(g) then Ok(Some((g.items[0].s, g.items[1].s)))
           else Err(Malformed("property_name_gsub"))
  {
    var g := Get(opts, "property_name_gsub", Nil);
    if !Truthy(g) then Ok(None)
    else if IsGsubPair(g) then Ok(Some((g.items[0].s, g.items[1].s)))
    else Err(Malformed("property_name_gsub"))
  }

  /** The two readings agree on every well-formed option and differ only in
      the error raised for a malformed one. */
  lemma GsubReadingsAgree(opts: seq<Entry>)
    ensures PropertyNameGsubAsWritten(opts).Ok? <==> PropertyNameGsub(opts).Ok?
    ensures PropertyNameGsubAsWritten(opts).Ok? ==> PropertyNameGsubAsWritten(opts) == PropertyNameGsub(opts)
  {
  }

  /** A concrete malformed option: a single String instead of a pair. */
  lemma GsubMalformedRaisesNameError()
    ensures var opts := [Entry(Sym("property_name_gsub"), Str("_"))];
      PropertyNameGsubAsWritten(opts) == Err(NameError) &&
      PropertyNameGsub(opts) == Err(Malformed("property_name_gsub"))
  {
    var opts := [Entry(Sym("property_name_gsub"), Str("_"))];
    assert Find(opts, Sym("property_name_gsub")) == Some(0);
  }

  /** `option_property_translation_matrix`: absent or falsy is nil, otherwise a Hash. */
  function TranslationMatrix(opts: seq<Entry>): (r: Result<Option<seq<Entry>>>)
    ensures var m := Get(opts, "property_translation_matrix", Nil);
      r == if !Truthy(m) then Ok(None) else if m.Map? then Ok(Some(m.entries)) else Err(Malformed("property_translation_matrix"))
  {
    var m := Get(opts, "property_translation_matrix", Nil);
    if !Truthy(m) then Ok(None)
    else if m.Map? then Ok(Some(m.entries))
    else Err(Malformed("property_translation_matrix"))
  }

  /** `resource_options`: the per-resource overrides are merged over the
      options; no options at all is an empty Hash; options that are not a
      Hash are malformed.  `options` and `overrides` are nil when the resource
      does not define them. */
  function ResourceOptions(options: Value, overrides: Value): (r: Result<seq<Entry>>)
    ensures !Truthy(overrides) && !Truthy(options) ==> r == Ok([])
    ensures !Truthy(overrides) && options.Map? ==> r == Ok(options.entries)
    ensures Truthy(overrides) && options.Map? && overrides.Map? ==> r == Ok(Merge(options.entries, overrides.entries))
    ensures Truthy(overrides) && options.Map? && !overrides.Map? ==> r == Err(TypeError)
    ensures Truthy(overrides) && !options.Map? ==> r == Err(NameError)
    ensures !Truthy(overrides) && Truthy(options) && !options.Map? ==> r == Err(Malformed("options"))
  {
    if Truthy(overrides) then
      if !options.Map? then Err(NameError)
      else if !overrides.Map? then Err(TypeError)
      else Ok(Merge(options.entries, overrides.entries))
    else if !Truthy(options) then Ok([])
    else if options.Map? then Ok(options.entries)
    else Err(Malformed("options"))
  }

  /** Overrides win: every option reads as the override's value when the
      override sets it, and as the resource's own option otherwise. */
  lemma OverridesWin(options: seq<Entry>, overrides: seq<Entry>, name: string)
    requires UniqueKeys(overrides)
    ensures var r := ResourceOptions(Map(options), Map(overrides));
      r.Ok? && Get(r.value, name, Nil) ==
        if HasKey(overrides, Sym(name)) then Lookup(overrides, Sym(name)) else Get(options, name, Nil)
  {
    MergeLookup(options, overrides, Sym(name));
  }
}
