/** The read side of the current library: the resource's section of an
    already-loaded configuration tree, the item in it that the resource
    describes, and the item contained in that one. */
module SectionRead {
  import opened Tree
  import opened Utils
  import opened Lists
  import Options
  import Translation
  import ConfigPath
  import Contained

  /** A translated property name as a tree key: nil for a falsy name. */
  function TranslatedKey(opts: seq<Entry>, k: Value): (r: Result<Value>)
    ensures !Truthy(k) ==> r == Ok(Nil)
    ensures r.Ok? ==> r.value.Nil? || r.value.Str?
    ensures Truthy(k) && Translation.PropertyValue(opts, k).Ok? ==> r == Ok(Str(Translation.PropertyValue(opts, k).value.value))
  {
    var t :- Translation.PropertyValue(opts, k);
    Ok(if t.Some? then Str(t.value) else Nil)
  }

  /** `load_config_file_section`: nil for a nil or empty tree, otherwise
      the tree dug along the resource's configuration path. */
  function Section(config: Value, typeName: string, opts: seq<Entry>): (r: Result<Value>)
    ensures NilOrEmpty([config]) ==> r == Ok(Nil)
    ensures !NilOrEmpty([config]) && ConfigPath.ResourcePath(typeName, opts).Ok? ==>
      r == Dig(config, ConfigPath.ResourcePath(typeName, opts).value)
  {
    if NilOrEmpty([config]) then Ok(Nil)
    else
      var path :- ConfigPath.ResourcePath(typeName, opts);
      Dig(config, path)
  }

  /** With the default one-element path the section is the tree's entry
      under the dotted name, nil when there is none. */
  lemma SectionUnderDottedName(config: Value, typeName: string, opts: seq<Entry>)
    requires config.Map? && config.entries != []
    requires Options.PathOverride(opts) == Ok(None)
    requires ConfigPath.DefaultPath(typeName, opts).Ok?
    ensures var d := ConfigPath.Dotted(typeName, Options.BasePath(opts).value);
      Section(config, typeName, opts) == Ok(Lookup(config.entries, Str(d)))
  {
    NilOrEmptySingle(config);
  }

  /** `item.one? || item.empty?` then `item.first`; anything else is
      refused with `ambiguous`. */
  function Settle(item: Value, ambiguous: Error): Result<Value>
  {
    var one :- OneOrEmpty(item);
    if one then First(item) else Err(ambiguous)
  }

  /** After `uniq`, the list settles to nil when nothing was found, to the
      match when every match is the same value (identical duplicates are
      not ambiguous), and to an error when two matches differ. */
  lemma SettleUniq(found: seq<Value>, ambiguous: Error)
    requires forall y :: y in found ==> Truthy(y)
    ensures found == [] ==> Settle(List(Uniq(found)), ambiguous) == Ok(Nil)
    ensures found != [] && AllSame(found) ==> Settle(List(Uniq(found)), ambiguous) == Ok(found[0])
    ensures !AllSame(found) ==> Settle(List(Uniq(found)), ambiguous) == Err(ambiguous)
  {
    UniqAtMostOne(found);
    var u := Uniq(found);
    assert forall y :: y in u ==> Truthy(y);
    assert OneOrEmpty(List(u)) == Ok(|u| <= 1);
    if found == [] {
      assert u == [];
    } else {
      assert u != [] && u[0] == found[0];
    }
  }

  /** Every element of `xs` is the same value. */
  predicate AllSame(xs: seq<Value>)
  {
    forall i, j :: 0 <= i < |xs| && 0 <= j < |xs| ==> xs[i] == xs[j]
  }

  /** `x` is a Hash holding `value` under `key`. */
  predicate Holds(x: Value, key: Value, value: Value)
  {
    x.Map? && Lookup(x.entries, key) == value
  }

  /** Selecting Hashes keeps exactly those that hold the value. */
  lemma SelectHashes(xs: seq<Value>, key: Value, value: Value)
    requires forall x :: x in xs ==> x.Map?
    ensures SelectItems(xs, key, value).Ok?
    ensures forall y :: y in SelectItems(xs, key, value).value <==> y in xs && Holds(y, key, value)
  {
    assert forall i :: 0 <= i < |xs| ==> Test(xs[i], key, value) == Ok(Holds(xs[i], key, value));
  }

  /** Selecting among Hashes by one key and settling: nil exactly when no
      Hash has the value under the key, the error exactly when two
      different Hashes have it, and otherwise a Hash that has it. */
  lemma PickAmongHashes(xs: seq<Value>, key: Value, value: Value, ambiguous: Error)
    requires forall x :: x in xs ==> x.Map?
    ensures SelectItems(xs, key, value).Ok?
    ensures var r := Settle(List(Uniq(SelectItems(xs, key, value).value)), ambiguous);
      (r.Ok? || r == Err(ambiguous)) &&
      (r == Ok(Nil) <==> forall x :: x in xs ==> !Holds(x, key, value)) &&
      (r == Err(ambiguous) <==> exists x, y :: x in xs && y in xs && x != y && Holds(x, key, value) && Holds(y, key, value)) &&
      (r.Ok? && r.value != Nil ==> r.value in xs && Holds(r.value, key, value))
  {
    SelectHashes(xs, key, value);
    var found := SelectItems(xs, key, value).value;
    SettleUniq(found, ambiguous);
    if found == [] {
      assert forall x :: x in xs ==> !Holds(x, key, value);
    } else {
      assert found[0] in found;
      assert Truthy(found[0]);
      if AllSame(found) {
        forall x, y | x in xs && y in xs && Holds(x, key, value) && Holds(y, key, value)
          ensures x == y
        {
          var i :| 0 <= i < |found| && found[i] == x;
          var j :| 0 <= j < |found| && found[j] == y;
        }
      } else {
        var i, j :| 0 <= i < |found| && 0 <= j < |found| && found[i] != found[j];
        assert found[i] in found && found[j] in found;
      }
    }
  }

  // ---------------------------------------------------------------------
  // The nested search
  // ---------------------------------------------------------------------

  /** Ruby's three-way `zip`: as long as `ks`, padded with nil. */
  function Zip(ks: seq<Value>, vs: seq<Value>, cs: seq<Value>): (r: seq<(Value, Value, Value)>)
    ensures |r| == |ks|
    ensures forall i :: 0 <= i < |ks| ==>
      r[i] == (ks[i], if i < |vs| then vs[i] else Nil, if i < |cs| then cs[i] else Nil)
  {
    seq(|ks|, i requires 0 <= i < |ks| => (ks[i], if i < |vs| then vs[i] else Nil, if i < |cs| then cs[i] else Nil))
  }

  /** `slice(0...-1)`: all but the last element. */
  function DropLast(xs: seq<Value>): (r: seq<Value>)
    ensures |r| == if xs == [] then 0 else |xs| - 1
    ensures forall i :: 0 <= i < |r| ==> r[i] == xs[i]
  {
    if xs == [] then [] else xs[..|xs| - 1]
  }

  /** The search the nested loop performs: at each triple, keep the
      distinct elements whose translated key holds the value, then, when a
      contained key is given, continue inside the first of them. */
  function Descend(opts: seq<Entry>, search: Value, tuples: seq<(Value, Value, Value)>): Result<Value>
    decreases |tuples|
  {
    if tuples == [] then Ok(search)
    else
      var (k, v, ck) := tuples[0];
      var tk :- TranslatedKey(opts, k);
      var found :- Select(search, tk, v);
      var kept := List(Uniq(found));
      if Truthy(ck) then
        var f :- First(kept);
        var inner :- FetchStrict(f, ck);
        Descend(opts, inner, tuples[1..])
      else Descend(opts, kept, tuples[1..])
  }

  /** A search over one triple without contained key is the flat
      selection. */
  lemma {:induction false} DescendLastLevel(opts: seq<Entry>, search: Value, k: Value, v: Value)
    requires TranslatedKey(opts, k).Ok? && Select(search, TranslatedKey(opts, k).value, v).Ok?
    ensures Descend(opts, search, [(k, v, Nil)]) == Ok(List(Uniq(Select(search, TranslatedKey(opts, k).value, v).value)))
  {
    assert [(k, v, Nil)][1..] == [];
  }

  /** Over a list of Hashes, a two-level search finds the contained key's
      value in the first Hash holding the first value, then searches that. */
  lemma TwoLevels(opts: seq<Entry>, xs: seq<Value>, k1: Value, v1: Value, ck: Value, k2: Value, v2: Value)
    requires forall x :: x in xs ==> x.Map?
    requires Truthy(ck)
    requires TranslatedKey(opts, k1).Ok? && TranslatedKey(opts, k2).Ok?
    ensures var tk := TranslatedKey(opts, k1).value;
      var found := Uniq(SelectItems(xs, tk, v1).value);
      found != [] && HasKey(found[0].entries, ck) ==>
        Descend(opts, List(xs), [(k1, v1, ck), (k2, v2, Nil)]) ==
        Descend(opts, Lookup(found[0].entries, ck), [(k2, v2, Nil)])
    ensures var tk := TranslatedKey(opts, k1).value;
      SelectItems(xs, tk, v1).Ok? && SelectItems(xs, tk, v1).value == [] ==>
        Descend(opts, List(xs), [(k1, v1, ck), (k2, v2, Nil)]) == Err(NameError)
  {
    var tk := TranslatedKey(opts, k1).value;
    var rest := [(k2, v2, Nil)];
    assert [(k1, v1, ck), (k2, v2, Nil)] == [(k1, v1, ck)] + rest;
    SelectHashes(xs, tk, v1);
    var selected := SelectItems(xs, tk, v1).value;
    assert Select(List(xs), tk, v1) == Ok(selected);
    DescendFirst(opts, List(xs), k1, v1, ck, rest);
    var found := Uniq(selected);
    assert First(List(found)) == Ok(if found == [] then Nil else found[0]);
    if found != [] {
      assert found[0] in selected;
      assert found[0].Map?;
    }
  }

  /** One level with a contained key: the search continues inside the
      contained key's value of the first distinct match. */
  lemma DescendFirst(opts: seq<Entry>, search: Value, k: Value, v: Value, ck: Value, rest: seq<(Value, Value, Value)>)
    requires Truthy(ck)
    requires TranslatedKey(opts, k).Ok? && Select(search, TranslatedKey(opts, k).value, v).Ok?
    ensures var kept := List(Uniq(Select(search, TranslatedKey(opts, k).value, v).value));
      First(kept).Ok? && FetchStrict(First(kept).value, ck).Ok? ==>
        Descend(opts, search, [(k, v, ck)] + rest) == Descend(opts, FetchStrict(First(kept).value, ck).value, rest)
    ensures var kept := List(Uniq(Select(search, TranslatedKey(opts, k).value, v).value));
      First(kept).Ok? && FetchStrict(First(kept).value, ck).Err? ==>
        Descend(opts, search, [(k, v, ck)] + rest) == Err(FetchStrict(First(kept).value, ck).error)
  {
    assert ([(k, v, ck)] + rest)[0] == (k, v, ck) && ([(k, v, ck)] + rest)[1..] == rest;
  }

  /** The `while filter_tuple.shift` loop. */
  method SearchNested(opts: seq<Entry>, config: Value, tuples: seq<(Value, Value, Value)>) returns (r: Result<Value>)
    ensures r == Descend(opts, config, tuples)
  {
    var search := config;
    var i := 0;
    while i < |tuples|
      invariant 0 <= i <= |tuples|
      invariant Descend(opts, search, tuples[i..]) == Descend(opts, config, tuples)
    {
      assert tuples[i..][1..] == tuples[i + 1..];
      var (k, v, ck) := tuples[i];
      var tk :- TranslatedKey(opts, k);
      var found :- Select(search, tk, v);
      search := List(Uniq(found));
      if Truthy(ck) {
        var f :- First(search);
        search :- FetchStrict(f, ck);
      }
      i := i + 1;
    }
    assert tuples[i..] == [];
    r := Ok(search);
  }

  // ---------------------------------------------------------------------
  // Items
  // ---------------------------------------------------------------------

  /** `load_config_file_section_item`.  The match key is translated and the
      match value read eagerly (for the debug message) before the nested
      test; a nested path searches level by level, a flat one selects
      directly; the result must have one or no distinct element. */
  function SectionItem(config: Value, typeName: string, opts: seq<Entry>): (r: Result<Value>)
    ensures Section(config, typeName, opts).Ok? && NilOrEmpty([Section(config, typeName, opts).value]) ==> r == Ok(Nil)
    ensures Section(config, typeName, opts).Err? ==> r == Err(Section(config, typeName, opts).error)
  {
    var section :- Section(config, typeName, opts);
    if NilOrEmpty([section]) then Ok(Nil)
    else
      var mk :- Options.PathMatchKey(opts);
      var tk :- TranslatedKey(opts, mk);
      var mv :- Options.PathMatchValue(opts);
      var nested :- Contained.ContainedNested(opts);
      var item :-
        if nested then
          var cks := Options.PathContainedKey(opts).value;
          Descend(opts, section, Zip(mk.items, mv.items, DropLast(cks.items)))
        else
          var found :- Select(section, tk, mv);
          Ok(List(Uniq(found)));
      Settle(item, RuntimeError)
  }

  /** A flat section that is an Array of Hashes yields nil when no Hash
      has the match value under the translated match key, raises when two
      different Hashes have it, and otherwise returns a Hash that has it. */
  lemma FlatSectionItem(config: Value, typeName: string, opts: seq<Entry>)
    requires Contained.ContainedNested(opts) == Ok(false)
    requires Section(config, typeName, opts).Ok?
    requires var s := Section(config, typeName, opts).value;
      s.List? && s.items != [] && forall x :: x in s.items ==> x.Map?
    requires Options.PathMatchKey(opts).Ok? && Options.PathMatchValue(opts).Ok?
    requires TranslatedKey(opts, Options.PathMatchKey(opts).value).Ok?
    ensures var xs := Section(config, typeName, opts).value.items;
      var key := TranslatedKey(opts, Options.PathMatchKey(opts).value).value;
      var value := Options.PathMatchValue(opts).value;
      var r := SectionItem(config, typeName, opts);
      (r.Ok? || r == Err(RuntimeError)) &&
      (r == Ok(Nil) <==> forall x :: x in xs ==> !Holds(x, key, value)) &&
      (r == Err(RuntimeError) <==>
        exists x, y :: x in xs && y in xs && x != y && Holds(x, key, value) && Holds(y, key, value)) &&
      (r.Ok? && r.value != Nil ==> r.value in xs && Holds(r.value, key, value))
  {
    var s := Section(config, typeName, opts).value;
    NilOrEmptySingle(s);
    var key := TranslatedKey(opts, Options.PathMatchKey(opts).value).value;
    var value := Options.PathMatchValue(opts).value;
    PickAmongHashes(s.items, key, value, RuntimeError);
  }

  /** `load_config_file_section_item` with its nested loop. */
  method LoadSectionItem(config: Value, typeName: string, opts: seq<Entry>) returns (r: Result<Value>)
    ensures r == SectionItem(config, typeName, opts)
  {
    var section :- Section(config, typeName, opts);
    if NilOrEmpty([section]) {
      return Ok(Nil);
    }
    var mk :- Options.PathMatchKey(opts);
    var tk :- TranslatedKey(opts, mk);
    var mv :- Options.PathMatchValue(opts);
    var nested :- Contained.ContainedNested(opts);
    var item;
    if nested {
      var cks := Options.PathContainedKey(opts).value;
      item :- SearchNested(opts, section, Zip(mk.items, mv.items, DropLast(cks.items)));
    } else {
      var found :- Select(section, tk, mv);
      item := List(Uniq(found));
    }
    r := Settle(item, RuntimeError);
  }

  /** `load_config_file_section_contained_item`: inside the item, the list
      under the containing key, and in it the one element whose translated
      config match key holds the config match value. */
  function ContainedItem(config: Value, typeName: string, opts: seq<Entry>): (r: Result<Value>)
    ensures SectionItem(config, typeName, opts).Ok? && NilOrEmpty([SectionItem(config, typeName, opts).value]) ==> r == Ok(Nil)
    ensures var item := SectionItem(config, typeName, opts);
      (item.Ok? && item.value.Map? && item.value.entries != [] &&
       Contained.ContainingKey(opts).Ok? && !HasKey(item.value.entries, Contained.ContainingKey(opts).value)) ==> r == Ok(Nil)
  {
    var item :- SectionItem(config, typeName, opts);
    if NilOrEmpty([item]) then Ok(Nil)
    else
      var ck :- Contained.ContainingKey(opts);
      var outer :- Fetch(item, ck, Nil);
      if NilOrEmpty([outer]) then Ok(Nil)
      else
        var mk :- Options.MatchKey(opts);
        var tk :- TranslatedKey(opts, mk);
        var mv :- Options.MatchValue(opts);
        var found :- Select(outer, tk, mv);
        Settle(List(Uniq(found)), CurrentValueDoesNotExist)
  }

  /** Under the containing key of a Hash item, an Array of Hashes yields
      nil when none matches, `CurrentValueDoesNotExist` when two different
      ones match, and otherwise a matching Hash. */
  lemma ContainedItemUnique(config: Value, typeName: string, opts: seq<Entry>)
    requires SectionItem(config, typeName, opts).Ok?
    requires var item := SectionItem(config, typeName, opts).value; item.Map? && item.entries != []
    requires Contained.ContainingKey(opts).Ok?
    requires var outer := Lookup(SectionItem(config, typeName, opts).value.entries, Contained.ContainingKey(opts).value);
      outer.List? && outer.items != [] && forall x :: x in outer.items ==> x.Map?
    requires Options.MatchKey(opts).Ok? && Options.MatchValue(opts).Ok?
    requires TranslatedKey(opts, Options.MatchKey(opts).value).Ok?
    ensures var xs := Lookup(SectionItem(config, typeName, opts).value.entries, Contained.ContainingKey(opts).value).items;
      var key := TranslatedKey(opts, Options.MatchKey(opts).value).value;
      var value := Options.MatchValue(opts).value;
      var r := ContainedItem(config, typeName, opts);
      (r.Ok? || r == Err(CurrentValueDoesNotExist)) &&
      (r == Ok(Nil) <==> forall x :: x in xs ==> !Holds(x, key, value)) &&
      (r == Err(CurrentValueDoesNotExist) <==>
        exists x, y :: x in xs && y in xs && x != y && Holds(x, key, value) && Holds(y, key, value)) &&
      (r.Ok? && r.value != Nil ==> r.value in xs && Holds(r.value, key, value))
  {
    var item := SectionItem(config, typeName, opts).value;
    NilOrEmptySingle(item);
    var outer := Lookup(item.entries, Contained.ContainingKey(opts).value);
    NilOrEmptySingle(outer);
    var key := TranslatedKey(opts, Options.MatchKey(opts).value).value;
    var value := Options.MatchValue(opts).value;
    PickAmongHashes(outer.items, key, value, CurrentValueDoesNotExist);
  }
}
