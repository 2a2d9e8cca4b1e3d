/** The file-type helpers of the current library and its deep-clean proc,
    which prunes nil values and empty collections from a configuration
    tree before it is written out. */
module FileTypes {
  import opened Tree
  import opened Utils
  import Options
  import Text

  /** `SUPPORTED_TYPES`. */
  const Supported: seq<Value> := [Sym("INI"), Sym("JSON"), Sym("JSONC"), Sym("TOML"), Sym("YAML")]

  /** `config_file_type`: the upcased file type option, when it is supported. */
  function ConfigFileType(opts: seq<Entry>): (r: Result<Value>)
    ensures Options.FileType(opts).Err? ==> r == Err(Options.FileType(opts).error)
    ensures Options.FileType(opts).Ok? ==>
      r == if Options.FileType(opts).value in Supported then Ok(Options.FileType(opts).value) else Err(ArgumentError)
  {
    var t :- Options.FileType(opts);
    if t in Supported then Ok(t) else Err(ArgumentError)
  }

  /** `config_file_template_default`. */
  function TemplateDefault(opts: seq<Entry>): (r: Result<string>)
  {
    var t :- ConfigFileType(opts);
    if t == Sym("JSON") then Ok("file_bare.erb")
    else if t in [Sym("INI"), Sym("JSONC"), Sym("TOML"), Sym("YAML")] then Ok("file.erb")
    else Err(NameError)
  }

  /** JSON is written with the bare template, every other supported type
      with the sectioned one, and an unsupported type is an `ArgumentError`. */
  lemma TemplateForEachType(opts: seq<Entry>)
    ensures ConfigFileType(opts).Ok? ==>
      TemplateDefault(opts) == Ok(if ConfigFileType(opts).value == Sym("JSON") then "file_bare.erb" else "file.erb")
    ensures ConfigFileType(opts).Err? ==> TemplateDefault(opts) == Err(ConfigFileType(opts).error)
    ensures var t := Options.Get(opts, "config_file_type", Nil);
      t == Sym("yaml") || t == Str("YAML") ==> TemplateDefault(opts) == Ok("file.erb")
  {
    var t := Options.Get(opts, "config_file_type", Nil);
    if t == Sym("yaml") || t == Str("YAML") {
      assert ToS(t) == "yaml" || ToS(t) == "YAML";
      assert Text.Upcase("yaml") == "YAML";
      assert Text.Upcase("YAML") == "YAML";
      assert Options.FileType(opts) == Ok(Sym("YAML"));
    }
  }

  // ---------------------------------------------------------------------
  // ENUM_DEEP_CLEAN
  // ---------------------------------------------------------------------

  /** The proc's verdict on a child it has already cleaned: nil, or an
      empty value that is not a String. */
  predicate ShouldDelete(v: Value)
  {
    NilOrEmpty([v]) && !v.Str?
  }

  lemma ShouldDeleteIff(v: Value)
    ensures ShouldDelete(v) <==> v.Nil? || v == Sym("") || v == Map([]) || v == List([])
  {
    NilOrEmptySingle(v);
  }

  /** The tree after `v.delete_if(&ENUM_DEEP_CLEAN)`: every child is
      cleaned first, then dropped if the verdict on the cleaned child says so. */
  function Clean(v: Value): Value
    decreases v
  {
    match v
    case List(xs) => List(CleanItems(xs))
    case Map(es) => Map(CleanEntries(es))
    case _ => v
  }

  function CleanItems(xs: seq<Value>): seq<Value>
    decreases xs
  {
    if xs == [] then []
    else
      var c := Clean(xs[0]);
      (if ShouldDelete(c) then [] else [c]) + CleanItems(xs[1..])
  }

  function CleanEntries(es: seq<Entry>): seq<Entry>
    decreases es
  {
    if es == [] then []
    else
      var c := CleanEntry(es[0]);
      (if ShouldDelete(c.val) then [] else [c]) + CleanEntries(es[1..])
  }

  function CleanEntry(e: Entry): Entry
    decreases e
  {
    Entry(e.key, Clean(e.val))
  }

  /** No nil and no empty non-String value anywhere below the top. */
  predicate Tidy(v: Value)
    decreases v
  {
    match v
    case List(xs) => TidyItems(xs)
    case Map(es) => TidyEntries(es)
    case _ => true
  }

  predicate TidyItems(xs: seq<Value>)
    decreases xs
  {
    xs == [] || (!ShouldDelete(xs[0]) && Tidy(xs[0]) && TidyItems(xs[1..]))
  }

  predicate TidyEntries(es: seq<Entry>)
    decreases es
  {
    es == [] || (TidyEntry(es[0]) && TidyEntries(es[1..]))
  }

  predicate TidyEntry(e: Entry)
    decreases e
  {
    !ShouldDelete(e.val) && Tidy(e.val)
  }

  /** Cleaning leaves a tidy tree. */
  lemma {:induction false} CleanIsTidy(v: Value)
    ensures Tidy(Clean(v))
    decreases v
  {
    match v
    case List(xs) => CleanItemsTidy(xs);
    case Map(es) => CleanEntriesTidy(es);
    case _ =>
  }

  lemma {:induction false} CleanItemsTidy(xs: seq<Value>)
    ensures TidyItems(CleanItems(xs))
    decreases xs
  {
    if xs != [] {
      CleanIsTidy(xs[0]);
      CleanItemsTidy(xs[1..]);
      var c := Clean(xs[0]);
      var r := CleanItems(xs);
      if !ShouldDelete(c) {
        assert r == [c] + CleanItems(xs[1..]);
        assert r[0] == c && r[1..] == CleanItems(xs[1..]);
        assert !ShouldDelete(r[0]) && Tidy(r[0]) && TidyItems(r[1..]);
      } else {
        assert r == CleanItems(xs[1..]);
      }
    }
  }

  lemma {:induction false} CleanEntriesTidy(es: seq<Entry>)
    ensures TidyEntries(CleanEntries(es))
    decreases es
  {
    if es != [] {
      CleanEntryTidy(es[0]);
      CleanEntriesTidy(es[1..]);
      var c := CleanEntry(es[0]);
      var r := CleanEntries(es);
      if !ShouldDelete(c.val) {
        assert r == [c] + CleanEntries(es[1..]);
        assert r[0] == c && r[1..] == CleanEntries(es[1..]);
        assert TidyEntry(r[0]) && TidyEntries(r[1..]);
      } else {
        assert r == CleanEntries(es[1..]);
      }
    }
  }

  lemma {:induction false} CleanEntryTidy(e: Entry)
    ensures Tidy(CleanEntry(e).val)
    decreases e
  {
    CleanIsTidy(e.val);
  }

  /** A tidy tree is left as it is. */
  lemma {:induction false} TidyIsClean(v: Value)
    requires Tidy(v)
    ensures Clean(v) == v
    decreases v
  {
    match v
    case List(xs) => TidyItemsClean(xs);
    case Map(es) => TidyEntriesClean(es);
    case _ =>
  }

  lemma {:induction false} TidyItemsClean(xs: seq<Value>)
    requires TidyItems(xs)
    ensures CleanItems(xs) == xs
    decreases xs
  {
    if xs != [] {
      TidyIsClean(xs[0]);
      TidyItemsClean(xs[1..]);
    }
  }

  lemma {:induction false} TidyEntriesClean(es: seq<Entry>)
    requires TidyEntries(es)
    ensures CleanEntries(es) == es
    decreases es
  {
    if es != [] {
      TidyEntryClean(es[0]);
      TidyEntriesClean(es[1..]);
    }
  }

  lemma {:induction false} TidyEntryClean(e: Entry)
    requires TidyEntry(e)
    ensures CleanEntry(e) == e
    decreases e
  {
    TidyIsClean(e.val);
  }

  /** Cleaning a cleaned tree changes nothing. */
  lemma CleanIdempotent(v: Value)
    ensures Clean(Clean(v)) == Clean(v)
  {
    CleanIsTidy(v);
    TidyIsClean(Clean(v));
  }

  /** An element survives exactly when its cleaned form does not deserve
      deletion: children are judged after they are cleaned, so a list that
      only held nils is itself removed. */
  lemma {:induction false} CleanItemsMembers(xs: seq<Value>, y: Value)
    ensures y in CleanItems(xs) <==> exists i :: 0 <= i < |xs| && y == Clean(xs[i]) && !ShouldDelete(y)
    decreases xs
  {
    if xs != [] {
      CleanItemsMembers(xs[1..], y);
      assert forall i :: 1 <= i < |xs| ==> xs[i] == xs[1..][i - 1];
      if exists i :: 0 <= i < |xs| && y == Clean(xs[i]) && !ShouldDelete(y) {
        var i :| 0 <= i < |xs| && y == Clean(xs[i]) && !ShouldDelete(y);
        if i > 0 {
          assert xs[1..][i - 1] == xs[i];
        }
      }
    }
  }

  /** Strings, empty ones included, and other scalars are never removed. */
  lemma KeepsScalars(xs: seq<Value>, y: Value)
    requires y in xs && (y.Str? || y.Int? || y.Bool? || (y.Sym? && y.name != []))
    ensures y in CleanItems(xs)
  {
    var i :| 0 <= i < |xs| && xs[i] == y;
    NilOrEmptySingle(y);
    CleanItemsMembers(xs, y);
  }

  /** A list holding only nils and empty lists is removed by its parent. */
  lemma NestedEmptiesRemoved()
    ensures CleanItems([List([Nil, List([])]), Str("")]) == [Str("")]
  {
    assert CleanItems([Nil, List([])]) == [];
    NilOrEmptySingle(List([]));
    NilOrEmptySingle(Str(""));
  }

  /** `ENUM_DEEP_CLEAN` itself: cleans `v` through its `delete_if` and
      answers whether `v`, once cleaned, is to be deleted by its parent. */
  method DeepClean(v: Value) returns (r: Value, delete: bool)
    ensures r == Clean(v) && delete == ShouldDelete(Clean(v))
    decreases v, 2
  {
    match v {
      case List(xs) =>
        var kept := DeepCleanItems(xs);
        r := List(kept);
      case Map(es) =>
        var kept := DeepCleanEntries(es);
        r := Map(kept);
      case _ =>
        r := v;
    }
    delete := NilOrEmpty([r]) && !r.Str?;
  }

  /** `delete_if(&ENUM_DEEP_CLEAN)` over an Array's elements. */
  method DeepCleanItems(xs: seq<Value>) returns (kept: seq<Value>)
    ensures kept == CleanItems(xs)
    decreases List(xs), 1
  {
    kept := [];
    var i := 0;
    while i < |xs|
      invariant 0 <= i <= |xs|
      invariant kept + CleanItems(xs[i..]) == CleanItems(xs)
    {
      ghost var rest := xs[i..];
      assert rest[0] == xs[i] && rest[1..] == xs[i + 1..];
      var c, del := DeepClean(xs[i]);
      if !del {
        assert CleanItems(rest) == [c] + CleanItems(xs[i + 1..]);
        assert kept + CleanItems(rest) == (kept + [c]) + CleanItems(xs[i + 1..]);
        kept := kept + [c];
      } else {
        assert CleanItems(rest) == CleanItems(xs[i + 1..]);
      }
      i := i + 1;
    }
    assert xs[|xs|..] == [];
  }

  /** `delete_if(&ENUM_DEEP_CLEAN)` over a Hash's pairs. */
  method DeepCleanEntries(es: seq<Entry>) returns (kept: seq<Entry>)
    ensures kept == CleanEntries(es)
    decreases Map(es), 1
  {
    kept := [];
    var i := 0;
    while i < |es|
      invariant 0 <= i <= |es|
      invariant kept + CleanEntries(es[i..]) == CleanEntries(es)
    {
      assert es[i..][1..] == es[i + 1..];
      var c, del := DeepCleanEntry(es[i]);
      if !del {
        kept := kept + [c];
      }
      i := i + 1;
    }
    assert es[|es|..] == [];
  }

  /** The proc applied to one Hash pair: it cleans the value. */
  method DeepCleanEntry(e: Entry) returns (c: Entry, delete: bool)
    ensures c == CleanEntry(e) && delete == ShouldDelete(c.val)
    decreases e, 0
  {
    var v, del := DeepClean(e.val);
    c := Entry(e.key, v);
    delete := del;
  }
}
