/** The path helpers of the accumulator: initialising a configuration path
    inside the template content (`accumulator_config_path_init`), and
    finding a contained item below it (`accumulator_config_path_filter`
    and the search of `accumulator_config_containing_path_init`).

    The content is one `Value`; a container inside it is named by a
    reference (`seq<Step>`).  Each function returns the content as Ruby
    leaves it, since Ruby changes it in place, together with the outcome. */
module Paths {
  import opened Tree
  import Options
  import Contained
  import SectionRead

  /** The actions whose last path level is created as an Array. */
  predicate IsListAction(action: Value)
  {
    action in [Sym("array_push"), Sym("array_delete"), Sym("key_push"), Sym("key_delete"), Sym("key_delete_match_self")]
  }

  /** Every path segment is nil: the root of the content is meant. */
  predicate AllNil(path: seq<Value>)
  {
    forall i :: 0 <= i < |path| ==> path[i].Nil?
  }

  /** The value `||=` puts at a missing level: `[]` for the segment equal to
      the last one under a list action, `{}` otherwise. */
  function Fresh(listAction: bool, l: Value, last: Value): (r: Value)
    ensures IsContainer(r) && IsEmpty(r) && Truthy(r)
    ensures r.List? <==> listAction && l == last
  {
    if listAction && l == last then List([]) else Map([])
  }

  // ---------------------------------------------------------------------
  // accumulator_config_path_init
  // ---------------------------------------------------------------------

  /** One level of the walk, `config_path[l] ||= fresh`: the container
      after the assignment and the child the walk moves to.  An object
      that is not a Hash or an Array fails as `c[l]` or `c[l] = v` fails on it. */
  function Level(c: Value, l: Value, listAction: bool, last: Value): (r: Result<(Value, Value)>)
    ensures r.Ok? ==> var (c1, child) := r.value;
      IsContainer(c) && IsContainer(c1) && c1.Map? == c.Map? && Index(c1, l) == Ok(child) && Truthy(child) &&
      GetAt(c1, [StepFor(c1, l)]) == Some(child)
    ensures r.Ok? && Truthy(Index(c, l).value) ==> r.value == (c, Index(c, l).value)
    ensures r.Ok? && !Truthy(Index(c, l).value) ==> r.value.1 == Fresh(listAction, l, last)
  {
    var v :- Index(c, l);
    if Truthy(v) then
      if !IsContainer(c) then Err(TypeError)
      else
        IndexStep(c, l, v);
        Ok((c, v))
    else
      var child := Fresh(listAction, l, last);
      var c1 :- AssignIndex(c, l, child);
      IndexStep(c1, l, child);
      Ok((c1, child))
  }

  /** The content and the outcome once the rest of the walk, `sub`, has
      run below the child at step `s` of `c1`. */
  function Attach(c1: Value, s: Step, sub: (Value, Result<seq<Step>>)): (r: (Value, Result<seq<Step>>))
    requires GetAt(c1, [s]).Some?
    ensures r.0 == PutAt(c1, [s], sub.0)
    ensures r.1.Ok? <==> sub.1.Ok?
    ensures r.1.Err? ==> r.1.error == sub.1.error
    ensures r.1.Ok? ==> r.1.value == [s] + sub.1.value && GetAt(r.0, r.1.value) == GetAt(sub.0, sub.1.value)
  {
    GetPut(c1, [s], sub.0);
    if sub.1.Err? then (PutAt(c1, [s], sub.0), Err(sub.1.error))
    else
      GetCons(PutAt(c1, [s], sub.0), s, sub.1.value);
      (PutAt(c1, [s], sub.0), Ok([s] + sub.1.value))
  }

  /** The walk of `path.each { |l| config_path[l] ||= ...; config_path = config_path[l] }`
      starting at `c`: the rewritten `c` and the reference to the object the
      walk ends on.  On an error the content keeps the levels already created. */
  function InitAt(c: Value, path: seq<Value>, listAction: bool, last: Value): (r: (Value, Result<seq<Step>>))
    ensures path == [] ==> r == (c, Ok([]))
    ensures r.1.Ok? ==> GetAt(r.0, r.1.value).Some? && |r.1.value| == |path|
    ensures path != [] && r.1.Ok? ==> IsContainer(c) && IsContainer(r.0) && r.0.Map? == c.Map?
    decreases |path|
  {
    if path == [] then (c, Ok([]))
    else
      match Level(c, path[0], listAction, last)
      case Err(e) => (c, Err(e))
      case Ok((c1, child)) =>
        var s := StepFor(c1, path[0]);
        PutStep(c1, path[0], InitAt(child, path[1..], listAction, last).0);
        Attach(c1, s, InitAt(child, path[1..], listAction, last))
  }

  /** `accumulator_config_path_init(action, *path)`: the root for an all-nil
      path; the existing object when `dig` finds a Hash or an Array;
      otherwise the walk that creates the missing levels. */
  function PathInit(t: Value, path: seq<Value>, listAction: bool): (r: (Value, Result<seq<Step>>))
    ensures r.1.Ok? ==> GetAt(r.0, r.1.value).Some?
  {
    if AllNil(path) then (t, Ok([]))
    else match Dig(t, path)
      case Err(e) => (t, Err(e))
      case Ok(x) =>
        if IsContainer(x) then
          DigLocate(t, path, x);
          (t, Ok(Locate(t, path)))
        else InitAt(t, path, listAction, path[|path| - 1])
  }

  /** The reference `dig` follows along `path`. */
  function Locate(c: Value, path: seq<Value>): seq<Step>
    decreases |path|
  {
    if path == [] then []
    else
      var s := StepFor(c, path[0]);
      [s] + match GetAt(c, [s]) { case Some(x) => Locate(x, path[1..]) case None => [] }
  }

  /** A Hash or an Array found by `dig` is the object at `Locate`. */
  lemma {:induction false} DigLocate(c: Value, path: seq<Value>, x: Value)
    requires IsContainer(c) && path != [] && DigFrom(c, path) == Ok(x) && IsContainer(x)
    ensures GetAt(c, Locate(c, path)) == Some(x)
    decreases |path|
  {
    var l := path[0];
    var f := DigStep(c, l).value;
    assert DigStep(c, l) == Index(c, l);
    var s := StepFor(c, l);
    if |path| == 1 {
      IndexStep(c, l, f);
      GetCons(c, s, []);
    } else {
      IndexStep(c, l, f);
      DigLocate(f, path[1..], x);
      GetCons(c, s, Locate(f, path[1..]));
    }
  }

  /** After a successful walk, `dig` along the same path finds the object the
      walk ended on, and `Locate` is the walk's reference. */
  lemma {:induction false} DigAfterInit(c: Value, path: seq<Value>, listAction: bool, last: Value)
    requires path != [] && InitAt(c, path, listAction, last).1.Ok?
    ensures DigFrom(InitAt(c, path, listAction, last).0, path) ==
      Ok(GetAt(InitAt(c, path, listAction, last).0, InitAt(c, path, listAction, last).1.value).value)
    ensures Locate(InitAt(c, path, listAction, last).0, path) == InitAt(c, path, listAction, last).1.value
    decreases |path|
  {
    var l := path[0];
    var (c1, child) := Level(c, l, listAction, last).value;
    var s := StepFor(c1, l);
    var sub := InitAt(child, path[1..], listAction, last);
    var c2 := PutAt(c1, [s], sub.0);
    PutStep(c1, l, sub.0);
    assert DigStep(c2, l) == Ok(sub.0);
    if |path| > 1 {
      DigAfterInit(child, path[1..], listAction, last);
      assert Truthy(sub.0);
      GetCons(c2, s, sub.1.value);
    }
  }

  /** Walking again over a walked path finds every level present and
      changes nothing, whatever the action. */
  lemma {:induction false} InitAtIdempotent(c: Value, path: seq<Value>, listAction: bool, again: bool, last: Value)
    requires InitAt(c, path, listAction, last).1.Ok?
    ensures InitAt(InitAt(c, path, listAction, last).0, path, again, last) == InitAt(c, path, listAction, last)
    decreases |path|
  {
    if path != [] {
      var l := path[0];
      var (c1, child) := Level(c, l, listAction, last).value;
      var s := StepFor(c1, l);
      var sub := InitAt(child, path[1..], listAction, last);
      var c2 := PutAt(c1, [s], sub.0);
      PutStep(c1, l, sub.0);
      InitAtIdempotent(child, path[1..], listAction, again, last);
      assert Truthy(sub.0);
      assert Level(c2, l, again, last) == Ok((c2, sub.0));
      PutPut(c1, [s], sub.0, sub.0);
    }
  }

  /** `accumulator_config_path_init` is idempotent: a second call, with any
      action, returns the same object and leaves the content as the first
      call left it.  Ruby calls it again from every
      `accumulator_config_array_index`, so the action sees one content. */
  lemma PathInitIdempotent(t: Value, path: seq<Value>, listAction: bool, again: bool)
    requires PathInit(t, path, listAction).1.Ok?
    ensures PathInit(PathInit(t, path, listAction).0, path, again) == PathInit(t, path, listAction)
  {
    if !AllNil(path) {
      var x := Dig(t, path).value;
      if !IsContainer(x) {
        var last := path[|path| - 1];
        DigAfterInit(t, path, listAction, last);
        InitAtIdempotent(t, path, listAction, again, last);
      }
    }
  }

  /** A path whose object already exists as a Hash or an Array is returned
      as it is and the content is untouched. */
  lemma ExistingPathUnchanged(t: Value, path: seq<Value>, listAction: bool, x: Value)
    requires !AllNil(path) && Dig(t, path) == Ok(x) && IsContainer(x)
    ensures PathInit(t, path, listAction).0 == t
    ensures PathInit(t, path, listAction).1.Ok? && GetAt(t, PathInit(t, path, listAction).1.value) == Some(x)
  {
    DigLocate(t, path, x);
  }

  /** The object a successful walk ends on: the value already at the path
      when `dig` finds a truthy one, else the fresh `{}`, or `[]` when the
      last segment is reached under a list action. */
  lemma {:induction false} InitLeaf(c: Value, path: seq<Value>, listAction: bool, last: Value)
    requires path != [] && InitAt(c, path, listAction, last).1.Ok?
    ensures GetAt(InitAt(c, path, listAction, last).0, InitAt(c, path, listAction, last).1.value) ==
      Some(if DigFrom(c, path).Ok? && Truthy(DigFrom(c, path).value) then DigFrom(c, path).value
           else Fresh(listAction, path[|path| - 1], last))
    decreases |path|
  {
    var l := path[0];
    var v := Index(c, l).value;
    assert DigStep(c, l) == Index(c, l);
    var (c1, child) := Level(c, l, listAction, last).value;
    var sub := InitAt(child, path[1..], listAction, last);
    if |path| > 1 {
      InitLeaf(child, path[1..], listAction, last);
      assert path[1..][|path[1..]| - 1] == path[|path| - 1];
      if !Truthy(v) {
        EmptyDig(child, path[1..]);
      }
    }
  }

  /** `dig` into an empty Hash or Array finds nothing. */
  lemma EmptyDig(c: Value, path: seq<Value>)
    requires IsContainer(c) && IsEmpty(c) && path != []
    ensures DigFrom(c, path).Ok? ==> DigFrom(c, path) == Ok(Nil)
  {
  }

  // ---------------------------------------------------------------------
  // accumulator_config_path_filter
  // ---------------------------------------------------------------------

  /** What the filter block receives from a collection: the elements of an
      Array; the keys of a Hash, since a one-argument block given to
      `Hash#filter` receives the key. */
  function Subjects(obj: Value): (r: seq<Value>)
    ensures obj.List? ==> r == obj.items
    ensures obj.Map? ==> |r| == |obj.entries| && forall i :: 0 <= i < |r| ==> r[i] == obj.entries[i].key
  {
    match obj
    case List(xs) => xs
    case Map(es) => seq(|es|, i requires 0 <= i < |es| => es[i].key)
    case _ => []
  }

  /** The filter block `v[key].eql?(value)` holds for the subject at `i`. */
  predicate Hit(xs: seq<Value>, key: Value, value: Value, i: int)
  {
    0 <= i < |xs| && Index(xs[i], key) == Ok(value)
  }

  /** The positions from `from` on where the block holds, in order; the
      first subject that cannot be indexed raises its error. */
  function FilterFrom(xs: seq<Value>, key: Value, value: Value, from: nat): (r: Result<seq<nat>>)
    requires from <= |xs|
    ensures r.Ok? <==> forall i :: from <= i < |xs| ==> Index(xs[i], key).Ok?
    ensures r.Err? ==> exists i :: from <= i < |xs| && Index(xs[i], key) == Err(r.error)
    ensures r.Ok? ==> forall i :: i in r.value <==> from <= i && Hit(xs, key, value, i)
    ensures r.Ok? ==> forall a :: 0 <= a < |r.value| ==> from <= r.value[a]
    ensures r.Ok? ==> forall a, b :: 0 <= a < b < |r.value| ==> r.value[a] < r.value[b]
    decreases |xs| - from
  {
    if from == |xs| then Ok([])
    else
      var got :- Index(xs[from], key);
      var rest :- FilterFrom(xs, key, value, from + 1);
      Ok(if got == value then [from] + rest else rest)
  }

  /** The object a match yields: the element of an Array, or the
      `[key, value]` pair of a Hash. */
  function Picked(obj: Value, i: nat): Value
  {
    match obj
    case List(xs) => if i < |xs| then xs[i] else Nil
    case Map(es) => if i < |es| then List([es[i].key, es[i].val]) else Nil
    case _ => Nil
  }

  /** The place of the element at position `i` of the Array at `p`. */
  function ItemPlace(t: Value, p: Place, i: nat): (r: Place)
    requires Deref(t, p).List? && i < |Deref(t, p).items|
    ensures Deref(t, r) == Deref(t, p).items[i]
  {
    match p
    case InTree(h) =>
      GetAppend(t, h, At(i));
      InTree(h + [At(i)])
    case Detached(v) => Detached(v.items[i])
  }

  /** `accumulator_config_path_filter(path, key, value)`, raising `tooMany`
      when more than one object matches: `nil` when nothing matches; the
      one matching element of an Array, where it is; for a Hash, the
      `[key, value]` pair Ruby builds, which is not part of the content. */
  function FilterWith(t: Value, p: Place, key: Value, value: Value, tooMany: Error): (r: Result<Place>)
    ensures !IsContainer(Deref(t, p)) ==> r == Err(RuntimeError)
    ensures var obj := Deref(t, p); var xs := Subjects(obj);
      IsContainer(obj) && FilterFrom(xs, key, value, 0).Err? ==> r == Err(FilterFrom(xs, key, value, 0).error)
    ensures var obj := Deref(t, p); var xs := Subjects(obj);
      IsContainer(obj) && FilterFrom(xs, key, value, 0).Ok? ==>
        (r == Ok(Detached(Nil)) <==> forall i :: !Hit(xs, key, value, i)) &&
        (r == Err(tooMany) <==> exists i, j :: i < j && Hit(xs, key, value, i) && Hit(xs, key, value, j)) &&
        (r.Ok? && r.value != Detached(Nil) ==>
          exists i :: Hit(xs, key, value, i) && (forall j :: Hit(xs, key, value, j) ==> j == i) &&
            Deref(t, r.value) == Picked(obj, i))
  {
    var obj := Deref(t, p);
    if !IsContainer(obj) then Err(RuntimeError)
    else
      var xs := Subjects(obj);
      var hits :- FilterFrom(xs, key, value, 0);
      if hits == [] then Ok(Detached(Nil))
      else if |hits| > 1 then
        assert Hit(xs, key, value, hits[0]) && Hit(xs, key, value, hits[1]);
        Err(tooMany)
      else
        var i := hits[0];
        assert Hit(xs, key, value, i);
        assert forall j :: Hit(xs, key, value, j) ==> j in hits;
        assert xs[i] != Nil;
        if obj.List? then Ok(ItemPlace(t, p, i))
        else Ok(Detached(List([obj.entries[i].key, obj.entries[i].val])))
  }

  /** The filter as written: a second match raises `FilterError` from a
      constructor that calls the one-argument `debug_var_output` with two
      arguments, so Ruby raises `ArgumentError` instead. */
  function FilterAsWritten(t: Value, p: Place, key: Value, value: Value): Result<Place>
  {
    FilterWith(t, p, key, value, ArgumentError)
  }

  /** The filter as intended: more than one match is a `FilterError`. */
  function Filter(t: Value, p: Place, key: Value, value: Value): Result<Place>
  {
    FilterWith(t, p, key, value, FilterError)
  }

  /** Two Array elements with the same value under the filter key. */
  lemma DuplicateMatchRaisesArgumentError()
    ensures var item := Map([Entry(Str("name"), Str("a"))]);
      var t := List([item, item]);
      FilterAsWritten(t, InTree([]), Str("name"), Str("a")) == Err(ArgumentError) &&
      Filter(t, InTree([]), Str("name"), Str("a")) == Err(FilterError)
  {
    var item := Map([Entry(Str("name"), Str("a"))]);
    var xs := [item, item];
    assert Find(item.entries, Str("name")) == Some(0);
    assert Hit(xs, Str("name"), Str("a"), 0) && Hit(xs, Str("name"), Str("a"), 1);
  }

  /** `search_object.fetch(ck)`: the element under `ck`, where it is. */
  function FetchPlace(t: Value, p: Place, ck: Value): (r: Result<Place>)
    ensures r.Ok? ==> FetchStrict(Deref(t, p), ck) == Ok(Deref(t, r.value))
    ensures r.Err? ==> FetchStrict(Deref(t, p), ck) == Err(r.error)
    ensures r.Ok? ==> r.value.InTree? == p.InTree?
  {
    var obj := Deref(t, p);
    var x :- FetchStrict(obj, ck);
    match p
    case InTree(h) =>
      FetchStep(obj, ck, x);
      GetAppend(t, h, StepFor(obj, ck));
      Ok(InTree(h + [StepFor(obj, ck)]))
    case Detached(_) => Ok(Detached(x))
  }

  // ---------------------------------------------------------------------
  // accumulator_config_containing_path_init
  // ---------------------------------------------------------------------

  /** The nested search: for each `(key, value, containing key)` filter the
      current object, stop at nil, and step into the containing key when
      there is one. */
  function ContainedWalk(t: Value, search: Place, tuples: seq<(Value, Value, Value)>, tooMany: Error): (r: Result<Place>)
    ensures tuples == [] ==> r == Ok(search)
    ensures Deref(t, search).Nil? ==> r == Ok(search)
    decreases |tuples|
  {
    if tuples == [] || Deref(t, search).Nil? then Ok(search)
    else
      var (k, v, ck) := tuples[0];
      var found :- FilterWith(t, search, k, v, tooMany);
      if Deref(t, found).Nil? then Ok(found)
      else
        var next :- if Truthy(ck) then FetchPlace(t, found, ck) else Ok(found);
        ContainedWalk(t, next, tuples[1..], tooMany)
  }

  /** The `rescue NameError, KeyError` clause: both become the error that
      no parent containing object exists. */
  function Rescue(e: Error): (r: Error)
    ensures r == NoParentPath <==> e == NameError || e == KeyError || e == NoParentPath
    ensures r != NoParentPath ==> r == e
  {
    if e == NameError || e == KeyError then NoParentPath else e
  }

  /** The default arguments `filter_key`, `filter_value` and `containing_key`,
      read before the body and outside its `rescue`. */
  function Defaults(opts: seq<Entry>): Result<(Value, Value, Value)>
  {
    var fk :- Options.PathMatchKey(opts);
    var fv :- Options.PathMatchValue(opts);
    var ck :- Options.PathContainedKey(opts);
    Ok((fk, fv, ck))
  }

  /** `accumulator_config_containing_path_init(action:, path:)`: initialise
      the parent path, then find the one contained object below it, by a
      single filter or, for nested items, by the search over the zipped
      option lists.  `tooMany` is the error for several matches, `mixed`
      the error of the nested test for a mixture of Arrays and scalars. */
  function ContainingWith(t: Value, path: seq<Value>, listAction: bool, opts: seq<Entry>, tooMany: Error, mixed: Error): (r: (Value, Result<Place>))
    ensures Defaults(opts).Err? ==> r == (t, Err(Defaults(opts).error))
    ensures Defaults(opts).Ok? ==> r.0 == PathInit(t, path, listAction).0
    ensures Defaults(opts).Ok? && PathInit(t, path, listAction).1.Err? ==>
      r.1 == Err(Rescue(PathInit(t, path, listAction).1.error))
    ensures Defaults(opts).Ok? && AllNil(path) ==> r == (t, Ok(InTree([])))
    ensures r.1.Err? ==> r.1.error != NameError && r.1.error != KeyError
  {
    match Defaults(opts)
    case Err(e) => (t, Err(e))
    case Ok((fk, fv, ck)) =>
      var (t1, parent) := PathInit(t, path, listAction);
      if parent.Err? then (t1, Err(Rescue(parent.error)))
      else if AllNil(path) then (t1, Ok(InTree(parent.value)))
      else match Contained.ContainedNestedWith(opts, mixed)
        case Err(e) => (t1, Err(Rescue(e)))
        case Ok(nested) =>
          var found :=
            if nested then
              var tuples := SectionRead.Zip(fk.items, fv.items, SectionRead.DropLast(ck.items));
              ContainedWalk(t1, InTree(parent.value), tuples, tooMany)
            else FilterWith(t1, InTree(parent.value), fk, fv, tooMany);
          (t1, if found.Err? then Err(Rescue(found.error)) else found)
  }

  /** As written: several matches raise `ArgumentError` from building the
      `FilterError`, and a mixed nested specification raises `NameError`,
      which the `rescue` turns into the missing-parent error. */
  function ContainingPathInitAsWritten(t: Value, path: seq<Value>, listAction: bool, opts: seq<Entry>): (Value, Result<Place>)
  {
    ContainingWith(t, path, listAction, opts, ArgumentError, NameError)
  }

  /** As intended: `FilterError` for several matches, and a malformed
      option for a mixed nested specification. */
  function ContainingPathInit(t: Value, path: seq<Value>, listAction: bool, opts: seq<Entry>): (Value, Result<Place>)
  {
    ContainingWith(t, path, listAction, opts, FilterError, Malformed("config_path_match_key"))
  }

  /** A nested specification mixing Arrays and scalars: as written the
      search reports that no parent path exists (the `NameError` is
      rescued), as intended it reports the malformed option. */
  lemma MixedNestingReadsAsNoParent(t: Value, path: seq<Value>, listAction: bool, opts: seq<Entry>)
    requires Defaults(opts).Ok? && !AllNil(path) && PathInit(t, path, listAction).1.Ok?
    requires Contained.ContainedNested(opts).Err?
    ensures ContainingPathInitAsWritten(t, path, listAction, opts).1 == Err(NoParentPath)
    ensures ContainingPathInit(t, path, listAction, opts).1 == Err(Malformed("config_path_match_key"))
  {
    Contained.NestedReadingsAgree(opts);
  }

  /** The containing search is idempotent like the path it initialises: a
      second call finds the same object in the same content. */
  lemma ContainingIdempotent(t: Value, path: seq<Value>, listAction: bool, again: bool, opts: seq<Entry>)
    requires PathInit(t, path, listAction).1.Ok?
    ensures var first := ContainingPathInit(t, path, listAction, opts);
      ContainingPathInit(first.0, path, again, opts) == first
  {
    PathInitIdempotent(t, path, listAction, again);
  }
}
