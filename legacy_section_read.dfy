/** The read side of the legacy library (`libraries/config/file.rb`): the
    section of an already-loaded configuration tree, the item in it, and
    the item contained in that one.  There is no nested search, every
    ambiguity is a bare `raise`, and a missing contained list is not
    caught before `select` runs on it. */
module LegacySectionRead {
  import opened Tree
  import opened Utils
  import opened Lists
  import LegacyOptions
  import LegacyTranslation
  import SectionRead

  /** `load_config_file_section`: nil for a nil or empty tree, otherwise
      the tree dug along the configuration path. */
  function Section(config: Value, path: seq<Value>): (r: Result<Value>)
    ensures NilOrEmpty([config]) ==> r == Ok(Nil)
    ensures !NilOrEmpty([config]) ==> r == Dig(config, path)
  {
    if NilOrEmpty([config]) then Ok(Nil) else Dig(config, path)
  }

  /** `load_config_file_section_item`: the distinct elements of the section
      whose translated path match key holds the path match value; more
      than one is a `RuntimeError`. */
  function SectionItem(config: Value, path: seq<Value>, opts: seq<Entry>): (r: Result<Value>)
    ensures Section(config, path).Ok? && NilOrEmpty([Section(config, path).value]) ==> r == Ok(Nil)
    ensures Section(config, path).Err? ==> r == Err(Section(config, path).error)
  {
    var section :- Section(config, path);
    if NilOrEmpty([section]) then Ok(Nil)
    else
      var mk :- LegacyOptions.PathMatchKey(opts);
      var tk :- LegacyTranslation.PropertyValue(opts, mk);
      var mv :- LegacyOptions.PathMatchValue(opts);
      var found :- Select(section, tk, mv);
      SectionRead.Settle(List(Uniq(found)), RuntimeError)
  }

  /** A section that is an Array of Hashes yields nil when no Hash holds
      the match value under the translated match key, raises when two
      different Hashes hold it, and otherwise returns a Hash that holds it. */
  lemma SectionItemUnique(config: Value, path: seq<Value>, opts: seq<Entry>)
    requires Section(config, path).Ok?
    requires var s := Section(config, path).value;
      s.List? && s.items != [] && forall x :: x in s.items ==> x.Map?
    requires LegacyOptions.PathMatchKey(opts).Ok? && LegacyOptions.PathMatchValue(opts).Ok?
    requires LegacyTranslation.PropertyValue(opts, LegacyOptions.PathMatchKey(opts).value).Ok?
    ensures var xs := Section(config, path).value.items;
      var key := LegacyTranslation.PropertyValue(opts, LegacyOptions.PathMatchKey(opts).value).value;
      var value := LegacyOptions.PathMatchValue(opts).value;
      var r := SectionItem(config, path, opts);
      (r.Ok? || r == Err(RuntimeError)) &&
      (r == Ok(Nil) <==> forall x :: x in xs ==> !SectionRead.Holds(x, key, value)) &&
      (r == Err(RuntimeError) <==>
        exists x, y :: x in xs && y in xs && x != y && SectionRead.Holds(x, key, value) && SectionRead.Holds(y, key, value)) &&
      (r.Ok? && r.value != Nil ==> r.value in xs && SectionRead.Holds(r.value, key, value))
  {
    var s := Section(config, path).value;
    NilOrEmptySingle(s);
    var key := LegacyTranslation.PropertyValue(opts, LegacyOptions.PathMatchKey(opts).value).value;
    var value := LegacyOptions.PathMatchValue(opts).value;
    SectionRead.PickAmongHashes(s.items, key, value, RuntimeError);
  }

  /** `load_config_file_section_contained_item`: the list under the
      contained key of the item, and in it the distinct elements whose
      translated config match key holds the config match value. */
  function ContainedItem(config: Value, path: seq<Value>, opts: seq<Entry>): (r: Result<Value>)
    ensures SectionItem(config, path, opts).Ok? && NilOrEmpty([SectionItem(config, path, opts).value]) ==> r == Ok(Nil)
  {
    var item :- SectionItem(config, path, opts);
    if NilOrEmpty([item]) then Ok(Nil)
    else
      var ck :- LegacyOptions.PathContainedKey(opts);
      var outer :- Fetch(item, ck, Nil);
      var mk :- LegacyOptions.MatchKey(opts);
      var tk :- LegacyTranslation.PropertyValue(opts, mk);
      var mv :- LegacyOptions.MatchValue(opts);
      var found :- Select(outer, tk, mv);
      SectionRead.Settle(List(Uniq(found)), RuntimeError)
  }

  /** An item without the contained key hands nil to `select`: a
      `NameError`, where the current library returns nil. */
  lemma MissingContainedKeyRaises(config: Value, path: seq<Value>, opts: seq<Entry>)
    requires SectionItem(config, path, opts).Ok?
    requires var item := SectionItem(config, path, opts).value; item.Map? && item.entries != []
    requires LegacyOptions.PathContainedKey(opts).Ok?
    requires !HasKey(SectionItem(config, path, opts).value.entries, LegacyOptions.PathContainedKey(opts).value)
    requires LegacyOptions.MatchKey(opts).Ok? && LegacyOptions.MatchValue(opts).Ok?
    requires LegacyTranslation.PropertyValue(opts, LegacyOptions.MatchKey(opts).value).Ok?
    ensures ContainedItem(config, path, opts) == Err(NameError)
  {
    NilOrEmptySingle(SectionItem(config, path, opts).value);
  }

  /** Under the contained key of a Hash item, an Array of Hashes yields nil
      when none matches, a `RuntimeError` when two different ones match, and
      otherwise a matching Hash. */
  lemma ContainedItemUnique(config: Value, path: seq<Value>, opts: seq<Entry>)
    requires SectionItem(config, path, opts).Ok?
    requires var item := SectionItem(config, path, opts).value; item.Map? && item.entries != []
    requires LegacyOptions.PathContainedKey(opts).Ok?
    requires var outer := Lookup(SectionItem(config, path, opts).value.entries, LegacyOptions.PathContainedKey(opts).value);
      outer.List? && outer.items != [] && forall x :: x in outer.items ==> x.Map?
    requires LegacyOptions.MatchKey(opts).Ok? && LegacyOptions.MatchValue(opts).Ok?
    requires LegacyTranslation.PropertyValue(opts, LegacyOptions.MatchKey(opts).value).Ok?
    ensures var xs := Lookup(SectionItem(config, path, opts).value.entries, LegacyOptions.PathContainedKey(opts).value).items;
      var key := LegacyTranslation.PropertyValue(opts, LegacyOptions.MatchKey(opts).value).value;
      var value := LegacyOptions.MatchValue(opts).value;
      var r := ContainedItem(config, path, opts);
      (r.Ok? || r == Err(RuntimeError)) &&
      (r == Ok(Nil) <==> forall x :: x in xs ==> !SectionRead.Holds(x, key, value)) &&
      (r == Err(RuntimeError) <==>
        exists x, y :: x in xs && y in xs && x != y && SectionRead.Holds(x, key, value) && SectionRead.Holds(y, key, value)) &&
      (r.Ok? && r.value != Nil ==> r.value in xs && SectionRead.Holds(r.value, key, value))
  {
    var item := SectionItem(config, path, opts).value;
    NilOrEmptySingle(item);
    var outer := Lookup(item.entries, LegacyOptions.PathContainedKey(opts).value);
    var key := LegacyTranslation.PropertyValue(opts, LegacyOptions.MatchKey(opts).value).value;
    var value := LegacyOptions.MatchValue(opts).value;
    SectionRead.PickAmongHashes(outer.items, key, value, RuntimeError);
  }
}
