/** Whether a contained configuration item is nested over several levels,
    and the key of the Hash that contains it. */
module Contained {
  import opened Tree
  import Options

  /** Classifies the path tuple `[match_key, match_value, contained_key]`:
      no Array is a flat path, all Arrays a nested one, a mixture is refused
      with `mixed`. */
  function Classify(tuple: seq<Value>, mixed: Error): (r: Result<bool>)
    ensures r == Ok(false) <==> forall i :: 0 <= i < |tuple| ==> !tuple[i].List?
    ensures r == Ok(true) <==> (exists i :: 0 <= i < |tuple| && tuple[i].List?) && forall i :: 0 <= i < |tuple| ==> tuple[i].List?
    ensures r.Err? ==> r.error == mixed
  {
    if forall i :: 0 <= i < |tuple| ==> !tuple[i].List? then Ok(false)
    else if forall i :: 0 <= i < |tuple| ==> tuple[i].List? then Ok(true)
    else Err(mixed)
  }

  /** Reads the tuple and classifies it: a malformed match key is raised; a
      missing match value or contained key means "not nested". */
  function ContainedNestedWith(opts: seq<Entry>, mixed: Error): (r: Result<bool>)
    ensures Options.PathMatchKey(opts).Err? ==> r == Err(Options.PathMatchKey(opts).error)
    ensures Options.PathMatchKey(opts).Ok? && (Options.PathMatchValue(opts).Err? || Options.PathContainedKey(opts).Err?) ==> r == Ok(false)
    ensures Options.PathMatchKey(opts).Ok? && Options.PathMatchValue(opts).Ok? && Options.PathContainedKey(opts).Ok? ==>
      r == Classify([Options.PathMatchKey(opts).value, Options.PathMatchValue(opts).value, Options.PathContainedKey(opts).value], mixed)
    ensures r == Ok(true) ==> Options.PathContainedKey(opts).Ok? && Options.PathContainedKey(opts).value.List?
    ensures r == Ok(true) ==> Options.PathMatchKey(opts).Ok? && Options.PathMatchKey(opts).value.List?
    ensures r == Ok(true) ==> Options.PathMatchValue(opts).Ok? && Options.PathMatchValue(opts).value.List?
  {
    var k :- Options.PathMatchKey(opts);
    match (Options.PathMatchValue(opts), Options.PathContainedKey(opts))
    case (Ok(v), Ok(c)) =>
      var tuple := [k, v, c];
      assert Classify(tuple, mixed) == Ok(true) ==> tuple[0].List? && tuple[1].List? && tuple[2].List?;
      Classify(tuple, mixed)
    case _ => Ok(false)
  }

  /** `accumulator_config_path_contained_nested?` as written: the error it
      raises for a mixture names a class that is not visible from where it
      is raised, so the mixture raises `NameError`. */
  function ContainedNestedAsWritten(opts: seq<Entry>): Result<bool>
  {
    ContainedNestedWith(opts, NameError)
  }

  /** `accumulator_config_path_contained_nested?` as intended: a mixture is a
      malformed option. */
  function ContainedNested(opts: seq<Entry>): Result<bool>
  {
    ContainedNestedWith(opts, Malformed("config_path_match_key"))
  }

  /** The two readings differ only in the error raised for a mixture. */
  lemma NestedReadingsAgree(opts: seq<Entry>)
    ensures ContainedNestedAsWritten(opts).Ok? <==> ContainedNested(opts).Ok?
    ensures ContainedNested(opts).Ok? ==> ContainedNestedAsWritten(opts) == ContainedNested(opts)
    ensures ContainedNested(opts).Err? && Options.PathMatchKey(opts).Ok? ==>
      ContainedNestedAsWritten(opts) == Err(NameError) && ContainedNested(opts) == Err(Malformed("config_path_match_key"))
  {
  }

  /** An Array match key with a String match value and contained key. */
  lemma MixedTupleRaisesNameError()
    ensures var opts := [Entry(Sym("config_path_match_key"), List([Str("a")])),
                         Entry(Sym("config_path_match_value"), Str("v")),
                         Entry(Sym("config_path_contained_key"), Str("c"))];
      ContainedNestedAsWritten(opts) == Err(NameError) &&
      ContainedNested(opts) == Err(Malformed("config_path_match_key"))
  {
    var opts := [Entry(Sym("config_path_match_key"), List([Str("a")])),
                 Entry(Sym("config_path_match_value"), Str("v")),
                 Entry(Sym("config_path_contained_key"), Str("c"))];
    assert Find(opts, Sym("config_path_match_key")) == Some(0);
    assert Find(opts, Sym("config_path_match_value")) == Some(1);
    assert Find(opts, Sym("config_path_contained_key")) == Some(2);
    var t := [List([Str("a")]), Str("v"), Str("c")];
    assert t[0].List? && !t[1].List?;
  }

  /** `accumulator_config_path_containing_key`: the last contained key of a
      nested path (nil for an empty Array), otherwise the contained key. */
  function ContainingKey(opts: seq<Entry>): (r: Result<Value>)
    ensures ContainedNested(opts) == Ok(true) ==>
      var c := Options.PathContainedKey(opts).value;
      c.List? && r == Ok(if c.items == [] then Nil else c.items[|c.items| - 1])
    ensures ContainedNested(opts) == Ok(false) ==> r == Options.PathContainedKey(opts)
    ensures ContainedNested(opts).Err? ==> r == Err(ContainedNested(opts).error)
  {
    var nested :- ContainedNested(opts);
    var c :- Options.PathContainedKey(opts);
    if nested && c.List? then Ok(if c.items == [] then Nil else c.items[|c.items| - 1])
    else Ok(c)
  }
}
