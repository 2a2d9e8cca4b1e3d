/** The general predicates of `_utils.rb`, shared word for word by the
    current and the legacy library. */
module Utils {
  import opened Tree

  /** `nil_or_empty?` of a single argument. */
  predicate NilOrEmptyOne(v: Value)
  {
    v.Nil? || IsEmpty(v)
  }

  /** Ruby's `nil_or_empty?(*values)`: some argument is nil, or responds to
      `empty?` and is empty. */
  function NilOrEmpty(vs: seq<Value>): (r: bool)
    ensures r <==> exists i :: 0 <= i < |vs| && (vs[i].Nil? || IsEmpty(vs[i]))
    ensures vs == [] ==> !r
  {
    if vs == [] then false
    else
      var rest := NilOrEmpty(vs[1..]);
      assert forall i :: 1 <= i < |vs| ==> vs[i] == vs[1..][i - 1];
      NilOrEmptyOne(vs[0]) || rest
  }

  /** Integers and booleans have no `empty?`, so they never count as empty;
      strings, symbols, arrays and hashes count exactly when they are empty. */
  lemma NilOrEmptySingle(v: Value)
    ensures NilOrEmpty([v]) <==> v.Nil? || (v.Str? && v.s == []) || (v.Sym? && v.name == []) ||
                                 (v.Map? && v.entries == []) || (v.List? && v.items == [])
    ensures (v.Int? || v.Bool?) ==> !NilOrEmpty([v])
  {
    assert [v][0] == v;
  }

  /** The Ruby classes `is_a?` is asked about in this code. */
  datatype RubyClass = NilClass | TrueClass | FalseClass | IntegerClass | StringClass
                     | SymbolClass | HashClass | ArrayClass | ObjectClass

  function ClassOf(v: Value): RubyClass
  {
    match v
    case Nil => NilClass
    case Bool(b) => if b then TrueClass else FalseClass
    case Int(_) => IntegerClass
    case Str(_) => StringClass
    case Sym(_) => SymbolClass
    case Map(_) => HashClass
    case List(_) => ArrayClass
  }

  /** `v.is_a?(c)`: `Object` is an ancestor of every value here. */
  predicate IsA(v: Value, c: RubyClass)
  {
    c == ObjectClass || ClassOf(v) == c
  }

  /** Ruby's `multi_is_a?(object, *classes)`. */
  function MultiIsA(v: Value, cs: seq<RubyClass>): (r: bool)
    ensures r <==> exists i :: 0 <= i < |cs| && IsA(v, cs[i])
  {
    if cs == [] then false
    else
      var rest := MultiIsA(v, cs[1..]);
      assert forall i :: 1 <= i < |cs| ==> cs[i] == cs[1..][i - 1];
      IsA(v, cs[0]) || rest
  }

  /** Ruby's `kv_test_log(object, key, value)`: `object.fetch(key, nil).eql?(value)`,
      for objects that respond to `fetch`. */
  function KvTest(obj: Value, k: Value, v: Value): (r: Result<bool>)
    ensures !RespondsToFetch(obj) ==> r == Err(ArgumentError)
    ensures obj.Map? ==> r == Ok(if HasKey(obj.entries, k) then Lookup(obj.entries, k) == v else v == Nil)
  {
    if !RespondsToFetch(obj) then Err(ArgumentError)
    else
      var got :- Fetch(obj, k, Nil);
      Ok(got == v)
  }
}
