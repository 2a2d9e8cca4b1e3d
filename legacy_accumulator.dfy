/** The accumulator of the legacy library (`libraries/resource.rb`): a
    Hash-only path initialisation, the four actions `:set`, `:append`,
    `:push` and `:delete` on the object at the path, and the filtering of a
    resource's property names.  The template content is the same shared
    object as in the current library, a `Template.ConfigTemplate`. */
module LegacyAccumulator {
  import opened Tree
  import Paths
  import Accumulator
  import LegacyOptions
  import LegacyTranslation
  import Template

  // ---------------------------------------------------------------------
  // accumulator_config_path_init
  // ---------------------------------------------------------------------

  /** `accumulator_config_path_init(*path)`: the root for an all-nil path;
      the Hash `dig` finds; otherwise the walk `config_hash[pn] ||= {}`
      along the whole path, which keeps every truthy value it meets. */
  function PathInit(t: Value, path: seq<Value>): (r: (Value, Result<seq<Step>>))
    ensures r.1.Ok? ==> GetAt(r.0, r.1.value).Some?
    ensures Paths.AllNil(path) ==> r == (t, Ok([]))
    ensures !Paths.AllNil(path) && Dig(t, path).Ok? && Dig(t, path).value.Map? ==>
      r.0 == t && r.1.Ok? && GetAt(t, r.1.value) == Some(Dig(t, path).value)
    ensures !Paths.AllNil(path) && Dig(t, path).Err? ==> r == (t, Err(Dig(t, path).error))
  {
    if Paths.AllNil(path) then (t, Ok([]))
    else match Dig(t, path)
      case Err(e) => (t, Err(e))
      case Ok(x) =>
        if x.Map? then
          Paths.DigLocate(t, path, x);
          (t, Ok(Paths.Locate(t, path)))
        else Paths.InitAt(t, path, false, Nil)
  }

  /** Without list actions the `last` segment plays no part in the walk. */
  lemma {:induction false} WalkIgnoresLast(c: Value, path: seq<Value>, a: Value, b: Value)
    ensures Paths.InitAt(c, path, false, a) == Paths.InitAt(c, path, false, b)
    decreases |path|
  {
    if path != [] {
      LevelIgnoresLast(c, path[0], a, b);
      match Paths.Level(c, path[0], false, a)
      case Err(_) =>
      case Ok((c1, child)) =>
        WalkIgnoresLast(child, path[1..], a, b);
    }
  }

  lemma LevelIgnoresLast(c: Value, l: Value, a: Value, b: Value)
    ensures Paths.Level(c, l, false, a) == Paths.Level(c, l, false, b)
  {
    assert Paths.Fresh(false, l, a) == Paths.Fresh(false, l, b);
  }

  /** The walk over a path `dig` can follow to a Hash or an Array finds
      every level truthy, keeps it, and ends on the object `dig` found. */
  lemma {:induction false} WalkExisting(c: Value, path: seq<Value>, x: Value)
    requires IsContainer(c) && path != [] && DigFrom(c, path) == Ok(x) && IsContainer(x)
    ensures Paths.InitAt(c, path, false, Nil) == (c, Ok(Paths.Locate(c, path)))
    decreases |path|
  {
    var l := path[0];
    var f := DigStep(c, l).value;
    assert DigStep(c, l) == Index(c, l);
    assert IsContainer(f);
    IndexStep(c, l, f);
    var s := StepFor(c, l);
    assert Paths.Level(c, l, false, Nil) == Ok((c, f));
    var sub := Paths.InitAt(f, path[1..], false, Nil);
    if |path| > 1 {
      WalkExisting(f, path[1..], x);
    }
    assert sub == (f, Ok(Paths.Locate(f, path[1..])));
    PutGet(c, [s]);
    assert Paths.InitAt(c, path, false, Nil) == Paths.Attach(c, s, sub);
  }

  /** The legacy initialisation agrees with the current one under an
      action that is not a list action: an Array found by `dig` is walked
      instead of returned, but the walk ends on it and changes nothing. */
  lemma AgreesWithCurrent(t: Value, path: seq<Value>)
    ensures PathInit(t, path) == Paths.PathInit(t, path, false)
  {
    if !Paths.AllNil(path) && Dig(t, path).Ok? {
      var x := Dig(t, path).value;
      if x.List? {
        WalkExisting(t, path, x);
      } else if !x.Map? {
        WalkIgnoresLast(t, path, Nil, path[|path| - 1]);
      }
    }
  }

  // ---------------------------------------------------------------------
  // The actions, on the object at the path
  // ---------------------------------------------------------------------

  /** The actions the `case` accepts. */
  predicate KnownAction(action: Value)
  {
    action in [Sym("set"), Sym("append"), Sym("push"), Sym("delete")]
  }

  /** `config_hash[key] = value`, which evaluates to `value`. */
  function SetOn(obj: Value, tk: Value, value: Value): (r: (Value, Result<Value>))
    ensures obj.Map? ==> r == (Map(Store(obj.entries, tk, value)), Ok(value))
    ensures r.1.Ok? ==> Index(r.0, tk) == Ok(value)
  {
    var out := Accumulator.SetOn(obj, tk, value);
    (out.0, if out.1.Err? then Err(out.1.error) else Ok(value))
  }

  /** `config_hash[key] ||= ''` followed by `config_hash[key].concat(value.to_s)`,
      which evaluates to the lengthened String.  An Array under the key
      refuses a String (`TypeError`); any other object has no `concat`. */
  function AppendOn(obj: Value, tk: Value, value: Value): (r: (Value, Result<Value>))
    ensures obj.Map? && !Truthy(Lookup(obj.entries, tk)) ==>
      r == (Map(Store(obj.entries, tk, Str(ToS(value)))), Ok(Str(ToS(value))))
    ensures obj.Map? && Lookup(obj.entries, tk).Str? ==>
      var s := Str(Lookup(obj.entries, tk).s + ToS(value));
      r == (Map(Store(obj.entries, tk, s)), Ok(s))
    ensures obj.Map? && Lookup(obj.entries, tk).List? ==> r == (obj, Err(TypeError))
  {
    match Index(obj, tk)
    case Err(e) => (obj, Err(e))
    case Ok(x) =>
      if Truthy(x) then Concat(obj, tk, x, value)
      else
        match AssignIndex(obj, tk, Str(""))
        case Err(e) => (obj, Err(e))
        case Ok(o1) =>
          StoreAgain(obj, tk, Str(""), Str(ToS(value)));
          assert "" + ToS(value) == ToS(value);
          Concat(o1, tk, Str(""), value)
  }

  /** A Hash that takes two values under one key keeps the second. */
  lemma StoreAgain(obj: Value, tk: Value, a: Value, b: Value)
    ensures obj.Map? ==> Store(Store(obj.entries, tk, a), tk, b) == Store(obj.entries, tk, b)
  {
    if obj.Map? {
      StoreStore(obj.entries, tk, a, b);
    }
  }

  /** `x.concat(value.to_s)` on the object `x` read from `obj[tk]`. */
  function Concat(obj: Value, tk: Value, x: Value, value: Value): (r: (Value, Result<Value>))
    ensures obj.Map? && x.Str? ==> r == (Map(Store(obj.entries, tk, Str(x.s + ToS(value)))), Ok(Str(x.s + ToS(value))))
  {
    if x.Str? then
      var s := Str(x.s + ToS(value));
      (Accumulator.PutChild(obj, tk, s), Ok(s))
    else if x.List? then (obj, Err(TypeError))
    else (obj, Err(NameError))
  }

  /** `config_hash[key] ||= []` followed by `config_hash[key].push(value)`,
      which evaluates to the lengthened Array.  Only an Array has `push`. */
  function PushOn(obj: Value, tk: Value, value: Value): (r: (Value, Result<Value>))
    ensures obj.Map? && !Truthy(Lookup(obj.entries, tk)) ==>
      r == (Map(Store(obj.entries, tk, List([value]))), Ok(List([value])))
    ensures obj.Map? && Lookup(obj.entries, tk).List? ==>
      var l := List(Lookup(obj.entries, tk).items + [value]);
      r == (Map(Store(obj.entries, tk, l)), Ok(l))
    ensures obj.Map? && Truthy(Lookup(obj.entries, tk)) && !Lookup(obj.entries, tk).List? ==>
      r == (obj, Err(NameError))
  {
    match Index(obj, tk)
    case Err(e) => (obj, Err(e))
    case Ok(x) =>
      if Truthy(x) then Push(obj, tk, x, value)
      else
        match AssignIndex(obj, tk, List([]))
        case Err(e) => (obj, Err(e))
        case Ok(o1) =>
          StoreAgain(obj, tk, List([]), List([value]));
          assert [] + [value] == [value];
          Push(o1, tk, List([]), value)
  }

  /** `x.push(value)` on the object `x` read from `obj[tk]`. */
  function Push(obj: Value, tk: Value, x: Value, value: Value): (r: (Value, Result<Value>))
    ensures obj.Map? && x.List? ==> r == (Map(Store(obj.entries, tk, List(x.items + [value]))), Ok(List(x.items + [value])))
  {
    if x.List? then
      var l := List(x.items + [value]);
      (Accumulator.PutChild(obj, tk, l), Ok(l))
    else (obj, Err(NameError))
  }

  /** `config_hash.delete(key) if config_hash.key?(key)`: the removed value,
      or nil when the key is absent. */
  function DeleteOn(obj: Value, tk: Value): (r: (Value, Result<Value>))
    ensures obj.Map? && !HasKey(obj.entries, tk) ==> r == (obj, Ok(Nil))
    ensures obj.Map? ==> r.1 == Ok(Lookup(obj.entries, tk)) && r.0.Map? && !HasKey(r.0.entries, tk)
    ensures obj.Map? ==> forall k :: k != tk ==> Lookup(r.0.entries, k) == Lookup(obj.entries, k)
    ensures !obj.Map? ==> r == (obj, Err(NameError))
  {
    if !obj.Map? then (obj, Err(NameError))
    else (Accumulator.DeleteOn(obj, tk).0, Ok(Lookup(obj.entries, tk)))
  }

  /** The `case action` on the object at the path, with the key translated
      by `translate_property_value`. */
  function Act(obj: Value, action: Value, key: Value, value: Value, opts: seq<Entry>): (r: (Value, Result<Value>))
    ensures !KnownAction(action) ==> r == (obj, Err(ArgumentError))
    ensures KnownAction(action) && LegacyTranslation.PropertyValue(opts, key).Err? ==>
      r == (obj, Err(LegacyTranslation.PropertyValue(opts, key).error))
  {
    if !KnownAction(action) then (obj, Err(ArgumentError))
    else
      match LegacyTranslation.PropertyValue(opts, key)
      case Err(e) => (obj, Err(e))
      case Ok(tk) =>
        if action == Sym("set") then SetOn(obj, tk, value)
        else if action == Sym("append") then AppendOn(obj, tk, value)
        else if action == Sym("push") then PushOn(obj, tk, value)
        else DeleteOn(obj, tk)
  }

  /** `accumulator_config(action, key, value)`: the content after the path
      is initialised and the action has run, and what the action evaluates
      to.  An unsupported action still leaves the initialised path behind. */
  function Config(t: Value, path: seq<Value>, action: Value, key: Value, value: Value, opts: seq<Entry>): (r: (Value, Result<Value>))
    ensures PathInit(t, path).1.Err? ==> r == (PathInit(t, path).0, Err(PathInit(t, path).1.error))
    ensures PathInit(t, path).1.Ok? && !KnownAction(action) ==> r == (PathInit(t, path).0, Err(ArgumentError))
  {
    var init := PathInit(t, path);
    if init.1.Err? then (init.0, Err(init.1.error))
    else
      var h := init.1.value;
      var out := Act(GetAt(init.0, h).value, action, key, value, opts);
      PutGet(init.0, h);
      (PutAt(init.0, h, out.0), out.1)
  }

  // ---------------------------------------------------------------------
  // What the actions promise
  // ---------------------------------------------------------------------

  /** `:append` has no repeat check: appending twice concatenates twice. */
  lemma AppendTwice(es: seq<Entry>, tk: Value, value: Value)
    requires !Truthy(Lookup(es, tk))
    ensures var once := AppendOn(Map(es), tk, value).0;
      once.Map? && AppendOn(once, tk, value) ==
        (Map(Store(es, tk, Str(ToS(value) + ToS(value)))), Ok(Str(ToS(value) + ToS(value))))
  {
    var once := Map(Store(es, tk, Str(ToS(value))));
    var twice := Str(ToS(value) + ToS(value));
    assert Lookup(once.entries, tk).Str?;
    StoreStore(es, tk, Str(ToS(value)), twice);
  }

  /** `:push` has no duplicate check: pushing twice leaves two copies. */
  lemma PushTwice(es: seq<Entry>, tk: Value, value: Value)
    requires !Truthy(Lookup(es, tk))
    ensures var once := PushOn(Map(es), tk, value).0;
      once.Map? && PushOn(once, tk, value) ==
        (Map(Store(es, tk, List([value, value]))), Ok(List([value, value])))
  {
    var once := Map(Store(es, tk, List([value])));
    assert Lookup(once.entries, tk).List?;
    assert [value] + [value] == [value, value];
    StoreStore(es, tk, List([value]), List([value, value]));
  }

  // ---------------------------------------------------------------------
  // The template methods
  // ---------------------------------------------------------------------

  /** `accumulator_config_path_init(*path)` on the template content. */
  method PathInitOn(tpl: Template.ConfigTemplate, path: seq<Value>) returns (h: Result<seq<Step>>)
    modifies tpl
    ensures (tpl.content, h) == PathInit(old(tpl.content), path)
  {
    if Paths.AllNil(path) {
      h := Ok([]);
    } else {
      var d := Dig(tpl.content, path);
      if d.Err? {
        h := Err(d.error);
      } else if d.value.Map? {
        h := Ok(Paths.Locate(tpl.content, path));
      } else {
        h := tpl.Walk(path, false, Nil);
      }
    }
  }

  /** `accumulator_config(action, key, value)` on the template content. */
  method AccumulatorConfig(tpl: Template.ConfigTemplate, path: seq<Value>, action: Value, key: Value, value: Value, opts: seq<Entry>)
    returns (r: Result<Value>)
    modifies tpl
    ensures (tpl.content, r) == Config(old(tpl.content), path, action, key, value, opts)
  {
    var h := PathInitOn(tpl, path);
    if h.Err? {
      r := Err(h.error);
    } else {
      var out := Act(GetAt(tpl.content, h.value).value, action, key, value, opts);
      tpl.content := PutAt(tpl.content, h.value, out.0);
      r := out.1;
    }
  }

  // ---------------------------------------------------------------------
  // resource_properties
  // ---------------------------------------------------------------------

  /** `GLOBAL_CONFIG_PROPERTIES_SKIP`. */
  const GlobalSkip: seq<Value> := [
    Sym("config_directory"), Sym("config_file"), Sym("load_existing_config_file"), Sym("cookbook"),
    Sym("source"), Sym("owner"), Sym("group"), Sym("filemode"), Sym("sensitive"), Sym("extra_options")]

  /** The names left by `reject! { |p| skip.include?(p) }`. */
  function Reject(xs: seq<Value>, skip: seq<Value>): (r: seq<Value>)
    ensures |r| <= |xs|
  {
    if xs == [] then []
    else (if xs[0] in skip then [] else [xs[0]]) + Reject(xs[1..], skip)
  }

  /** A name is kept exactly when it is there and not skipped. */
  lemma {:induction false} RejectMembers(xs: seq<Value>, skip: seq<Value>, y: Value)
    ensures y in Reject(xs, skip) <==> y in xs && y !in skip
    decreases |xs|
  {
    if xs != [] {
      RejectMembers(xs[1..], skip, y);
      assert xs == [xs[0]] + xs[1..];
    }
  }

  /** Rejection works element by element, so the kept names stay in order. */
  lemma {:induction false} RejectAppend(xs: seq<Value>, ys: seq<Value>, skip: seq<Value>)
    ensures Reject(xs + ys, skip) == Reject(xs, skip) + Reject(ys, skip)
    decreases |xs|
  {
    if xs == [] {
      assert xs + ys == ys;
    } else {
      assert (xs + ys)[0] == xs[0] && (xs + ys)[1..] == xs[1..] + ys;
      RejectAppend(xs[1..], ys, skip);
    }
  }

  /** Names none of which is skipped are all kept, in their order. */
  lemma {:induction false} RejectNone(xs: seq<Value>, skip: seq<Value>)
    requires forall y :: y in xs ==> y !in skip
    ensures Reject(xs, skip) == xs
    decreases |xs|
  {
    if xs != [] {
      assert xs[0] in xs;
      RejectNone(xs[1..], skip);
    }
  }

  /** `properties.reject! { |p| skip.include?(p) }`. */
  method RejectNames(props: seq<Value>, skip: seq<Value>) returns (kept: seq<Value>)
    ensures kept == Reject(props, skip)
  {
    kept := [];
    var i := 0;
    while i < |props|
      invariant 0 <= i <= |props|
      invariant kept + Reject(props[i..], skip) == Reject(props, skip)
    {
      assert props[i..][1..] == props[i + 1..];
      ghost var head := if props[i] in skip then [] else [props[i]];
      assert Reject(props[i..], skip) == head + Reject(props[i + 1..], skip);
      assert kept + Reject(props[i..], skip) == (kept + head) + Reject(props[i + 1..], skip);
      if props[i] !in skip {
        kept := kept + [props[i]];
      }
      i := i + 1;
    }
    assert props[|props|..] == [];
  }

  /** `resource_properties` as written: any configured skip list (an empty
      Array included) reaches the debug line that interpolates the
      undefined `skip_properties`, a `NameError`. */
  function PropertiesAsWritten(props: seq<Value>, opts: seq<Entry>): (r: Result<seq<Value>>)
    ensures LegacyOptions.PropertiesSkip(opts) == Ok(None) ==> r == Ok(Reject(props, GlobalSkip))
  {
    match LegacyOptions.PropertiesSkip(opts)
    case Err(e) => Err(e)
    case Ok(None) => Ok(Reject(props, GlobalSkip))
    case Ok(Some(_)) => Err(NameError)
  }

  /** `resource_properties` as intended: the global names are removed, then
      the resource's own skip list. */
  function Properties(props: seq<Value>, opts: seq<Entry>): (r: Result<seq<Value>>)
    ensures r.Err? <==> LegacyOptions.PropertiesSkip(opts).Err?
    ensures LegacyOptions.PropertiesSkip(opts) == Ok(None) ==> r == PropertiesAsWritten(props, opts)
  {
    match LegacyOptions.PropertiesSkip(opts)
    case Err(e) => Err(e)
    case Ok(None) => Ok(Reject(props, GlobalSkip))
    case Ok(Some(skip)) => Ok(Reject(Reject(props, GlobalSkip), skip))
  }

  /** A property name survives exactly when it is not skipped globally and
      not skipped by the resource. */
  lemma PropertiesMembers(props: seq<Value>, opts: seq<Entry>, y: Value)
    requires LegacyOptions.PropertiesSkip(opts).Ok?
    ensures var skip := LegacyOptions.PropertiesSkip(opts).value;
      y in Properties(props, opts).value <==>
        y in props && y !in GlobalSkip && (skip.Some? ==> y !in skip.value)
  {
    RejectMembers(props, GlobalSkip, y);
    var skip := LegacyOptions.PropertiesSkip(opts).value;
    if skip.Some? {
      RejectMembers(Reject(props, GlobalSkip), skip.value, y);
    }
  }

  /** The names kept keep their order: filtering a list cut in two is
      filtering each part. */
  lemma PropertiesKeepOrder(xs: seq<Value>, ys: seq<Value>, opts: seq<Entry>)
    requires LegacyOptions.PropertiesSkip(opts).Ok?
    ensures Properties(xs + ys, opts).value == Properties(xs, opts).value + Properties(ys, opts).value
  {
    RejectAppend(xs, ys, GlobalSkip);
    var skip := LegacyOptions.PropertiesSkip(opts).value;
    if skip.Some? {
      RejectAppend(Reject(xs, GlobalSkip), Reject(ys, GlobalSkip), skip.value);
    }
  }

  /** The corrected `resource_properties`, with both `reject!` loops. */
  method ResourceProperties(props: seq<Value>, opts: seq<Entry>) returns (r: Result<seq<Value>>)
    ensures r == Properties(props, opts)
  {
    var properties := RejectNames(props, GlobalSkip);
    var skip := LegacyOptions.PropertiesSkip(opts);
    if skip.Err? {
      r := Err(skip.error);
    } else if skip.value.Some? {
      properties := RejectNames(properties, skip.value.value);
      r := Ok(properties);
    } else {
      r := Ok(properties);
    }
  }

  /** A resource that configures any skip list gets a `NameError` from the
      code as written, while the intended filtering removes the listed names. */
  lemma SkipListRaisesNameError()
    ensures var opts := [Entry(Sym("config_properties_skip"), List([Sym("port")]))];
      var props := [Sym("owner"), Sym("port"), Sym("bind")];
      PropertiesAsWritten(props, opts) == Err(NameError) &&
      Properties(props, opts) == Ok([Sym("bind")])
  {
    var opts := [Entry(Sym("config_properties_skip"), List([Sym("port")]))];
    var props := [Sym("owner"), Sym("port"), Sym("bind")];
    assert Find(opts, Sym("config_properties_skip")) == Some(0);
    assert LegacyOptions.PropertiesSkip(opts) == Ok(Some([Sym("port")]));
    assert Sym("owner") in GlobalSkip;
    assert Sym("port") !in GlobalSkip && Sym("bind") !in GlobalSkip by {
      assert forall i :: 0 <= i < |GlobalSkip| ==> GlobalSkip[i] != Sym("port") && GlobalSkip[i] != Sym("bind");
    }
    assert props[1..] == [Sym("port"), Sym("bind")] && props[1..][1..] == [Sym("bind")];
    assert Reject(props, GlobalSkip) == [Sym("port"), Sym("bind")];
    assert [Sym("port"), Sym("bind")][1..] == [Sym("bind")];
    assert Reject([Sym("port"), Sym("bind")], [Sym("port")]) == [Sym("bind")];
  }
}
