/** Property-name translation of the current library: a resource property
    name becomes a configuration key through the translation matrix and the
    name gsub, and a configuration key becomes a property name by the
    inverse lookups. */
module Translation {
  import opened Text
  import opened Tree
  import Options

  /** The position of the first entry whose value is `v` (Ruby's `Hash#key`
      looks up the same entry). */
  function FindValue(es: seq<Entry>, v: Value): (r: Option<nat>)
    ensures r.Some? ==> r.value < |es| && es[r.value].val == v
    ensures r.Some? ==> forall j :: 0 <= j < r.value ==> es[j].val != v
    ensures r.None? ==> forall j :: 0 <= j < |es| ==> es[j].val != v
  {
    if es == [] then None
    else if es[0].val == v then Some(0)
    else match FindValue(es[1..], v)
      case None => None
      case Some(j) => Some(j + 1)
  }

  /** Ruby's `Hash#value?`. */
  predicate HasValue(es: seq<Entry>, v: Value)
  {
    FindValue(es, v).Some?
  }

  /** Ruby's `Hash#key(v)`: the key of the first entry holding `v`, or nil. */
  function KeyOf(es: seq<Entry>, v: Value): Value
  {
    match FindValue(es, v)
    case None => Nil
    case Some(j) => es[j].key
  }

  /** No two entries of the matrix hold the same value. */
  predicate Injective(es: seq<Entry>)
  {
    forall i, j :: 0 <= i < j < |es| ==> es[i].val != es[j].val
  }

  /** In a Hash whose values are distinct, `key` undoes `[]`. */
  lemma KeyOfLookup(es: seq<Entry>, k: Value)
    requires Injective(es) && HasKey(es, k)
    ensures HasValue(es, Lookup(es, k)) && KeyOf(es, Lookup(es, k)) == k
  {
    var j := Find(es, k).value;
    var i := FindValue(es, es[j].val);
    assert i.Some?;
    assert i.value == j;
  }

  /** `translate_property_value` once its two options have been read: the
      matrix entry of the key (or the key itself) as a String, with the gsub
      applied. */
  function ValueWith(matrix: Option<seq<Entry>>, gsub: Option<(string, string)>, key: Value): (r: string)
    ensures var base := if matrix.Some? && HasKey(matrix.value, key) then ToS(Lookup(matrix.value, key)) else ToS(key);
      r == if gsub.Some? then ReplaceAll(base, gsub.value.0, gsub.value.1) else base
  {
    var base := if matrix.Some? && HasKey(matrix.value, key) then ToS(Lookup(matrix.value, key)) else ToS(key);
    if gsub.Some? then ReplaceAll(base, gsub.value.0, gsub.value.1) else base
  }

  /** `translate_property_key` once its two options have been read: the
      matrix key holding the value (or the value itself) as a String, with
      the gsub applied in reverse. */
  function KeyWith(matrix: Option<seq<Entry>>, gsub: Option<(string, string)>, value: Value): (r: string)
    ensures var base := if matrix.Some? && HasValue(matrix.value, value) then ToS(KeyOf(matrix.value, value)) else ToS(value);
      r == if gsub.Some? then ReplaceAll(base, gsub.value.1, gsub.value.0) else base
  {
    var base := if matrix.Some? && HasValue(matrix.value, value) then ToS(KeyOf(matrix.value, value)) else ToS(value);
    if gsub.Some? then ReplaceAll(base, gsub.value.1, gsub.value.0) else base
  }

  /** `translate_property_value(key)`: nil for a falsy key; a malformed
      matrix or gsub option is raised, the matrix first. */
  function PropertyValue(opts: seq<Entry>, key: Value): (r: Result<Option<string>>)
    ensures !Truthy(key) ==> r == Ok(None)
    ensures Truthy(key) && Options.TranslationMatrix(opts).Err? ==> r == Err(Options.TranslationMatrix(opts).error)
    ensures Truthy(key) && Options.TranslationMatrix(opts).Ok? ==>
      r == match Options.PropertyNameGsub(opts)
           case Err(e) => Err(e)
           case Ok(g) => Ok(Some(ValueWith(Options.TranslationMatrix(opts).value, g, key)))
  {
    if !Truthy(key) then Ok(None)
    else
      var m :- Options.TranslationMatrix(opts);
      var g :- Options.PropertyNameGsub(opts);
      Ok(Some(ValueWith(m, g, key)))
  }

  /** `translate_property_key(value)`, the inverse direction. */
  function PropertyKey(opts: seq<Entry>, value: Value): (r: Result<Option<string>>)
    ensures !Truthy(value) ==> r == Ok(None)
    ensures Truthy(value) && Options.TranslationMatrix(opts).Err? ==> r == Err(Options.TranslationMatrix(opts).error)
    ensures Truthy(value) && Options.TranslationMatrix(opts).Ok? ==>
      r == match Options.PropertyNameGsub(opts)
           case Err(e) => Err(e)
           case Ok(g) => Ok(Some(KeyWith(Options.TranslationMatrix(opts).value, g, value)))
  {
    if !Truthy(value) then Ok(None)
    else
      var m :- Options.TranslationMatrix(opts);
      var g :- Options.PropertyNameGsub(opts);
      Ok(Some(KeyWith(m, g, value)))
  }

  /** Without options, both directions are `to_s`. */
  lemma NoOptionsIsToS(key: Value)
    requires Truthy(key)
    ensures PropertyValue([], key) == Ok(Some(ToS(key)))
    ensures PropertyKey([], key) == Ok(Some(ToS(key)))
  {
  }

  /** A one-character gsub replaces each occurrence of the character, position by position. */
  lemma {:induction false} ReplaceChar(s: string, c: char, d: char)
    ensures var r := ReplaceAll(s, [c], [d]);
      |r| == |s| && forall i :: 0 <= i < |s| ==> r[i] == if s[i] == c then d else s[i]
  {
    if s != [] {
      ReplaceChar(s[1..], c, d);
      var rest := ReplaceAll(s[1..], [c], [d]);
      assert IsPrefix([c], s) <==> s[0] == c;
      var r := ReplaceAll(s, [c], [d]);
      assert r == [if s[0] == c then d else s[0]] + rest;
      assert forall i :: 1 <= i < |s| ==> s[i] == s[1..][i - 1];
    }
  }

  /** A one-character gsub is undone by the reverse gsub on names that did
      not already contain the replacement character. */
  lemma GsubCharRoundTrip(s: string, c: char, d: char)
    requires forall i :: 0 <= i < |s| ==> s[i] != d
    ensures ReplaceAll(ReplaceAll(s, [c], [d]), [d], [c]) == s
  {
    var r := ReplaceAll(s, [c], [d]);
    ReplaceChar(s, c, d);
    ReplaceChar(r, d, c);
    var q := ReplaceAll(r, [d], [c]);
    assert |q| == |s|;
    forall i | 0 <= i < |s| ensures q[i] == s[i] {
    }
  }

  /** Translating a property name to its configuration key and back gives the
      name's String form, for a matrix with distinct String values whose
      values do not collide with untranslated names. */
  lemma MatrixRoundTrip(opts: seq<Entry>, k: Value)
    requires Truthy(k)
    requires !Truthy(Options.Get(opts, "property_name_gsub", Nil))
    requires var m := Options.Get(opts, "property_translation_matrix", Nil);
      m.Map? && Injective(m.entries) && (forall i :: 0 <= i < |m.entries| ==> m.entries[i].val.Str?) &&
      (HasKey(m.entries, k) || !HasValue(m.entries, Str(ToS(k))))
    ensures PropertyValue(opts, k).Ok? && PropertyValue(opts, k).value.Some?
    ensures PropertyKey(opts, Str(PropertyValue(opts, k).value.value)) == Ok(Some(ToS(k)))
  {
    var m := Options.Get(opts, "property_translation_matrix", Nil).entries;
    if HasKey(m, k) {
      KeyOfLookup(m, k);
      var j := Find(m, k).value;
      assert m[j].val.Str?;
    }
  }

  /** With a one-character gsub and no matrix, translating a name that does
      not contain the replacement character and back gives it unchanged. */
  lemma GsubRoundTrip(opts: seq<Entry>, name: string, c: char, d: char)
    requires name != []
    requires !Truthy(Options.Get(opts, "property_translation_matrix", Nil))
    requires Options.Get(opts, "property_name_gsub", Nil) == List([Str([c]), Str([d])])
    requires forall i :: 0 <= i < |name| ==> name[i] != d
    ensures PropertyValue(opts, Str(name)).Ok? && PropertyValue(opts, Str(name)).value.Some?
    ensures PropertyKey(opts, Str(PropertyValue(opts, Str(name)).value.value)) == Ok(Some(name))
  {
    GsubCharRoundTrip(name, c, d);
  }
}
