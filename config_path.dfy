/** The configuration path of a resource: by default its type name, with
    the base path removed, split on underscores and rejoined with dots, as a
    one-element path; an override option replaces it outright. */
module ConfigPath {
  import opened Text
  import opened Tree
  import Options

  /** `type_string.gsub(strip, '').split('_').join('.')`, the strip pattern
      read literally. */
  function Dotted(typeName: string, base: Option<string>): string
  {
    var stripped := if base.Some? then ReplaceAll(typeName, base.value, "") else ReplaceAll(typeName, "", "");
    Join(RubySplit(stripped, '_'), '.')
  }

  /** The dotted name is the stripped name with its trailing underscores
      dropped and every other underscore turned into a dot. */
  lemma DottedIsSwap(typeName: string, base: Option<string>)
    ensures var stripped := if base.Some? then ReplaceAll(typeName, base.value, "") else typeName;
      Dotted(typeName, base) == Swap(StripTrailing(stripped, '_'), '_', '.')
  {
    ReplaceEmptyByEmpty(typeName);
    var stripped := if base.Some? then ReplaceAll(typeName, base.value, "") else typeName;
    SplitJoinIsSwap(stripped);
  }

  /** `resource_default_config_path` as written: `Array(string)` always has
      one element, so the emptiness guard after it never fires and an empty
      name becomes the path `[""]`. */
  function DefaultPathAsWritten(typeName: string, opts: seq<Entry>): (r: Result<seq<Value>>)
    ensures Options.BasePath(opts).Err? <==> r.Err?
    ensures r.Ok? ==> r.value == [Str(Dotted(typeName, Options.BasePath(opts).value))]
  {
    var base :- Options.BasePath(opts);
    Ok([Str(Dotted(typeName, base))])
  }

  /** `resource_default_config_path` as intended: an empty generated path
      is an error. */
  function DefaultPath(typeName: string, opts: seq<Entry>): (r: Result<seq<Value>>)
    ensures Options.BasePath(opts).Err? ==> r == Err(Options.BasePath(opts).error)
    ensures Options.BasePath(opts).Ok? ==>
      var d := Dotted(typeName, Options.BasePath(opts).value);
      r == if d == [] then Err(RuntimeError) else Ok([Str(d)])
  {
    var base :- Options.BasePath(opts);
    var d := Dotted(typeName, base);
    if d == [] then Err(RuntimeError) else Ok([Str(d)])
  }

  /** The two agree except on an empty generated name. */
  lemma DefaultPathAgrees(typeName: string, opts: seq<Entry>)
    ensures DefaultPath(typeName, opts).Ok? ==> DefaultPathAsWritten(typeName, opts) == DefaultPath(typeName, opts)
    ensures DefaultPathAsWritten(typeName, opts).Ok? && DefaultPath(typeName, opts).Err? ==>
      DefaultPathAsWritten(typeName, opts).value == [Str("")]
  {
  }

  /** A resource named exactly its base path gets the path `[""]` instead of an error. */
  lemma EmptyNameSlipsThrough()
    ensures var opts := [Entry(Sym("config_base_path"), Str("foo"))];
      DefaultPathAsWritten("foo", opts) == Ok([Str("")]) &&
      DefaultPath("foo", opts) == Err(RuntimeError)
  {
    var opts := [Entry(Sym("config_base_path"), Str("foo"))];
    assert Find(opts, Sym("config_base_path")) == Some(0);
    assert IsPrefix("foo", "foo");
    assert ReplaceAll("foo", "foo", "") == "";
    assert Fields("", '_') == [""];
    assert DropTrailingEmpty([""]) == DropTrailingEmpty([]);
  }

  /** Without a base path the default path is the type name with its
      underscores turned into dots, trailing ones dropped: a name with no
      trailing underscore keeps its length and has no underscore left. */
  lemma DefaultPathShape(typeName: string, opts: seq<Entry>)
    requires !Truthy(Options.Get(opts, "config_base_path", Nil))
    requires typeName != [] && typeName[|typeName| - 1] != '_'
    ensures DefaultPath(typeName, opts).Ok?
    ensures var p := DefaultPath(typeName, opts).value;
      |p| == 1 && p[0].Str? && |p[0].s| == |typeName| &&
      forall i :: 0 <= i < |typeName| ==> p[0].s[i] == if typeName[i] == '_' then '.' else typeName[i]
  {
    DottedIsSwap(typeName, None);
    assert StripTrailing(typeName, '_') == typeName;
  }

  /** `resource_config_path`: the override option when set, otherwise the default path. */
  function ResourcePath(typeName: string, opts: seq<Entry>): (r: Result<seq<Value>>)
    ensures Options.PathOverride(opts).Err? ==> r == Err(Options.PathOverride(opts).error)
    ensures Options.PathOverride(opts).Ok? && Options.PathOverride(opts).value.Some? ==>
      r == Ok(Options.PathOverride(opts).value.value)
    ensures Options.PathOverride(opts) == Ok(None) ==> r == DefaultPath(typeName, opts)
  {
    var o :- Options.PathOverride(opts);
    if o.Some? then Ok(o.value) else DefaultPath(typeName, opts)
  }
}
