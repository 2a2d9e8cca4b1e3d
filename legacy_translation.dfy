/** Property-name translation of the legacy library.  A matrix hit is
    returned as it is stored (a Symbol stays a Symbol) before the gsub option
    is read; only a miss is turned into a String and passed through the gsub. */
module LegacyTranslation {
  import opened Text
  import opened Tree
  import LegacyOptions
  import Options
  import Translation

  /** `translate_property_value(key)`; nil for a falsy key. */
  function PropertyValue(opts: seq<Entry>, key: Value): (r: Result<Value>)
    ensures !Truthy(key) ==> r == Ok(Nil)
    ensures Truthy(key) && LegacyOptions.TranslationMatrix(opts).Ok? &&
            LegacyOptions.TranslationMatrix(opts).value.Some? &&
            HasKey(LegacyOptions.TranslationMatrix(opts).value.value, key) ==>
      r == Ok(Lookup(LegacyOptions.TranslationMatrix(opts).value.value, key))
    ensures r.Ok? && Truthy(key) && LegacyOptions.TranslationMatrix(opts).Ok? && !(LegacyOptions.TranslationMatrix(opts).value.Some? &&
            HasKey(LegacyOptions.TranslationMatrix(opts).value.value, key)) ==>
      LegacyOptions.PropertyNameGsub(opts).Ok? &&
      r.value == Str(Translation.ValueWith(None, LegacyOptions.PropertyNameGsub(opts).value, key))
    ensures r.Err? ==> r.error == ArgumentError
  {
    if !Truthy(key) then Ok(Nil)
    else
      var m :- LegacyOptions.TranslationMatrix(opts);
      if m.Some? && HasKey(m.value, key) then Ok(Lookup(m.value, key))
      else
        var g :- LegacyOptions.PropertyNameGsub(opts);
        Ok(Str(if g.Some? then ReplaceAll(ToS(key), g.value.0, g.value.1) else ToS(key)))
  }

  /** `translate_property_key(value)`. */
  function PropertyKey(opts: seq<Entry>, value: Value): (r: Result<Value>)
    ensures !Truthy(value) ==> r == Ok(Nil)
    ensures Truthy(value) && LegacyOptions.TranslationMatrix(opts).Ok? &&
            LegacyOptions.TranslationMatrix(opts).value.Some? &&
            Translation.HasValue(LegacyOptions.TranslationMatrix(opts).value.value, value) ==>
      r == Ok(Translation.KeyOf(LegacyOptions.TranslationMatrix(opts).value.value, value))
    ensures r.Ok? && Truthy(value) && LegacyOptions.TranslationMatrix(opts).Ok? && !(LegacyOptions.TranslationMatrix(opts).value.Some? &&
            Translation.HasValue(LegacyOptions.TranslationMatrix(opts).value.value, value)) ==>
      LegacyOptions.PropertyNameGsub(opts).Ok? &&
      r.value == Str(Translation.KeyWith(None, LegacyOptions.PropertyNameGsub(opts).value, value))
    ensures r.Err? ==> r.error == ArgumentError
  {
    if !Truthy(value) then Ok(Nil)
    else
      var m :- LegacyOptions.TranslationMatrix(opts);
      if m.Some? && Translation.HasValue(m.value, value) then Ok(Translation.KeyOf(m.value, value))
      else
        var g :- LegacyOptions.PropertyNameGsub(opts);
        Ok(Str(if g.Some? then ReplaceAll(ToS(value), g.value.1, g.value.0) else ToS(value)))
  }

  /** A matrix hit never reads the gsub option: a malformed gsub goes
      unnoticed for translated names. */
  lemma MatrixHitIgnoresGsub(opts: seq<Entry>, key: Value)
    requires Truthy(key)
    requires var m := Options.Get(opts, "property_translation_matrix", Nil);
      m.Map? && HasKey(m.entries, key)
    ensures PropertyValue(opts, key) == Ok(Lookup(Options.Get(opts, "property_translation_matrix", Nil).entries, key))
  {
  }

  /** With distinct matrix values, translating a matrix key and back returns
      the key itself, with its original type. */
  lemma MatrixRoundTrip(opts: seq<Entry>, k: Value)
    requires Truthy(k)
    requires var m := Options.Get(opts, "property_translation_matrix", Nil);
      m.Map? && Translation.Injective(m.entries) && HasKey(m.entries, k) && Truthy(Lookup(m.entries, k))
    ensures PropertyValue(opts, k).Ok?
    ensures PropertyKey(opts, PropertyValue(opts, k).value) == Ok(k)
  {
    var m := Options.Get(opts, "property_translation_matrix", Nil).entries;
    Translation.KeyOfLookup(m, k);
  }

  /** On a matrix hit the legacy translation is the current one's result
      before `to_s`. */
  lemma AgreesWithCurrentOnStrings(opts: seq<Entry>, key: Value)
    requires Truthy(key)
    requires var m := Options.Get(opts, "property_translation_matrix", Nil);
      m.Map? && HasKey(m.entries, key) && Lookup(m.entries, key).Str?
    requires !Truthy(Options.Get(opts, "property_name_gsub", Nil))
    ensures PropertyValue(opts, key).Ok? && PropertyValue(opts, key).value.Str?
    ensures Translation.PropertyValue(opts, key) == Ok(Some(PropertyValue(opts, key).value.s))
  {
  }
}
