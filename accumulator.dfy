/** What `accumulator_config` does to the configuration template content:
    the matching of Array items against a resource (`accumulator_config_array_index`),
    the choice between creating, merging and replacing an item, and the
    effect of each configuration action on the object found at the
    resource's path.

    Each action is a function of the object it works on, returning the
    object as Ruby leaves it and whether the action ran to its end (`false`
    for an early `return`); `Perform` writes the object back where it was found. */
module Accumulator {
  import opened Tree
  import opened Lists
  import opened Paths
  import Text
  import Utils
  import Options
  import Contained
  import ConfigPath
  import SectionRead

  /** What a resource contributes: its declared type name, its options, the
      Chef action being run, and its `option_config_match` pairs. */
  datatype Resource = Resource(typeName: string, opts: seq<Entry>, chefAction: Value, criteria: seq<Entry>)

  // ---------------------------------------------------------------------
  // accumulator_config_array_index
  // ---------------------------------------------------------------------

  /** `c.each_with_index.select { |obj, _| match.any? { ... } }.map(&:last).reverse!`. */
  function Matching(c: Value, criteria: seq<Entry>): (r: Result<Option<seq<nat>>>)
    ensures r.Ok? ==> Elements(c).Ok? && r.value.Some? && Descending(r.value.value, |Elements(c).value|)
    ensures r.Ok? ==> forall i :: i in r.value.value <==>
      0 <= i < |Elements(c).value| && AnyMatch(Elements(c).value[i], criteria) == Ok(true)
    ensures c.List? ==> (r.Ok? <==> forall i :: 0 <= i < |c.items| ==> AnyMatch(c.items[i], criteria).Ok?)
    ensures !IsContainer(c) ==> r == Err(NameError)
  {
    var xs :- Elements(c);
    var idx :- MatchIndices(xs, criteria);
    Ok(Some(idx))
  }

  /** `accumulator_config_array_index` with the error `unknown` for the
      Hash path types: the positions of the matching items, largest first,
      in the Array at the path (`:array`) or under the containing key of the
      contained parent (`:array_contained`); `nil` when there is no contained
      parent.  The path is initialised on the way, as Ruby does. */
  function ArrayIndexWith(t: Value, res: Resource, unknown: Error): (r: (Value, Result<Option<seq<nat>>>))
    ensures (ConfigPath.ResourcePath(res.typeName, res.opts).Ok? && Options.PathTypeOf(res.opts).Ok? &&
             Options.PathTypeOf(res.opts).value in {Options.HashPath, Options.HashContained}) ==> r == (t, Err(unknown))
    ensures r.1.Ok? ==>
      Options.PathTypeOf(res.opts).Ok? && Options.PathTypeOf(res.opts).value in {Options.ArrayPath, Options.ArrayContained}
    ensures r.0 != t ==>
      ConfigPath.ResourcePath(res.typeName, res.opts).Ok? &&
      r.0 == PathInit(t, ConfigPath.ResourcePath(res.typeName, res.opts).value, IsListAction(res.chefAction)).0
    ensures ConfigPath.ResourcePath(res.typeName, res.opts).Ok? && Options.PathTypeOf(res.opts) == Ok(Options.ArrayPath) ==>
      var init := PathInit(t, ConfigPath.ResourcePath(res.typeName, res.opts).value, IsListAction(res.chefAction));
      r.0 == init.0 &&
      (init.1.Ok? ==> GetAt(init.0, init.1.value).Some? && r.1 == Matching(GetAt(init.0, init.1.value).value, res.criteria))
    ensures ConfigPath.ResourcePath(res.typeName, res.opts).Ok? && Options.PathTypeOf(res.opts) == Ok(Options.ArrayContained) &&
            Contained.ContainingKey(res.opts).Ok? ==>
      var cp := ContainingPathInit(t, ConfigPath.ResourcePath(res.typeName, res.opts).value, IsListAction(res.chefAction), res.opts);
      var ck := Contained.ContainingKey(res.opts).value;
      r.0 == cp.0 &&
      (cp.1.Ok? && !Truthy(Deref(cp.0, cp.1.value)) ==> r.1 == Ok(None)) &&
      (cp.1.Ok? && Truthy(Deref(cp.0, cp.1.value)) && Fetch(Deref(cp.0, cp.1.value), ck, List([])).Ok? ==>
         r.1 == Matching(Fetch(Deref(cp.0, cp.1.value), ck, List([])).value, res.criteria))
  {
    match ConfigPath.ResourcePath(res.typeName, res.opts)
    case Err(e) => (t, Err(e))
    case Ok(path) =>
      match Options.PathTypeOf(res.opts)
      case Err(e) => (t, Err(e))
      case Ok(pt) =>
        if pt == Options.ArrayPath then
          var (t1, h) := PathInit(t, path, IsListAction(res.chefAction));
          if h.Err? then (t1, Err(h.error))
          else (t1, Matching(GetAt(t1, h.value).value, res.criteria))
        else if pt == Options.ArrayContained then
          match Contained.ContainingKey(res.opts)
          case Err(e) => (t, Err(e))
          case Ok(ck) =>
            var (t1, p) := ContainingPathInit(t, path, IsListAction(res.chefAction), res.opts);
            if p.Err? then (t1, Err(p.error))
            else
              var parent := Deref(t1, p.value);
              if !Truthy(parent) then (t1, Ok(None))
              else (t1, match Fetch(parent, ck, List([])) { case Err(e) => Err(e) case Ok(c) => Matching(c, res.criteria) })
        else (t, Err(unknown))
  }

  /** As written, the Hash path types reach `raise ArgumentError "..."`,
      which Ruby reads as a call of an undefined method `ArgumentError`. */
  function ArrayIndexAsWritten(t: Value, res: Resource): (Value, Result<Option<seq<nat>>>)
  {
    ArrayIndexWith(t, res, NameError)
  }

  /** As intended: the Hash path types raise `ArgumentError`. */
  function ArrayIndex(t: Value, res: Resource): (Value, Result<Option<seq<nat>>>)
  {
    ArrayIndexWith(t, res, ArgumentError)
  }

  /** The default path type `:hash` with a `key_push`: as written the index
      lookup fails with `NameError`, as intended with `ArgumentError`. */
  lemma HashPathIndexRaisesNameError(t: Value)
    ensures var res := Resource("app_setting", [], Sym("create"), []);
      ArrayIndexAsWritten(t, res) == (t, Err(NameError)) &&
      ArrayIndex(t, res) == (t, Err(ArgumentError))
  {
    var res := Resource("app_setting", [], Sym("create"), []);
    ConfigPath.DefaultPathShape(res.typeName, res.opts);
  }

  /** `accumulator_config_array_present?`: an index list that is neither nil nor empty. */
  predicate Present(idx: Option<seq<nat>>)
  {
    idx.Some? && idx.value != []
  }

  /** The index list with nil read as no positions. */
  function Positions(idx: Option<seq<nat>>): seq<nat>
  {
    if idx.Some? then idx.value else []
  }

  // ---------------------------------------------------------------------
  // The push sub-action
  // ---------------------------------------------------------------------

  datatype Push = Create | MergeOne | Replace

  /** The `push_action` of `key_push` and `array_push`. */
  function PushDecision(present: bool, idx: seq<nat>, value: Value, force: bool): (r: Result<Push>)
    requires present ==> idx != []
    ensures r == Ok(Create) <==> !present
    ensures r == Ok(MergeOne) <==> present && |idx| == 1 && value.Map? && !force
    ensures r == Ok(Replace) <==> present && (|idx| > 1 || force)
    ensures r.Err? <==> present && |idx| == 1 && !value.Map? && !force
    ensures r.Err? ==> r.error == RuntimeError
  {
    if !present then Ok(Create)
    else if |idx| == 1 && value.Map? && !force then Ok(MergeOne)
    else if |idx| > 1 || force then Ok(Replace)
    else Err(RuntimeError)
  }

  /** `force_replace` with no match still creates, and forcing turns a
      single-match merge into a replace. */
  lemma ForceWithoutMatchCreates(idx: seq<nat>, value: Value)
    ensures PushDecision(false, idx, value, true) == Ok(Create)
    ensures idx != [] ==> PushDecision(true, idx, value, true) == Ok(Replace)
  {
  }

  // ---------------------------------------------------------------------
  // The actions, on the object at the configuration path
  // ---------------------------------------------------------------------

  /** The object after its child under `k`, changed in place by Ruby, is
      seen through `obj[k]` again; an object that cannot take `obj[k] = v`
      handed out a copy, so it is unchanged. */
  function PutChild(obj: Value, k: Value, child: Value): (r: Value)
    ensures obj.Map? ==> r == Map(Store(obj.entries, k, child))
    ensures AssignIndex(obj, k, child).Err? ==> r == obj
  {
    match AssignIndex(obj, k, child)
    case Ok(o) => o
    case Err(_) => obj
  }

  /** `:set`: `config_path[config_key] = value`. */
  function SetOn(obj: Value, ck: Value, value: Value): (r: (Value, Result<bool>))
    ensures r.1.Ok? ==> Index(r.0, ck) == Ok(value) && r.1 == Ok(true)
    ensures obj.Map? ==> r == (Map(Store(obj.entries, ck, value)), Ok(true))
    ensures r.1.Err? ==> r.0 == obj
  {
    match AssignIndex(obj, ck, value)
    case Ok(o) => (o, Ok(true))
    case Err(e) => (obj, Err(e))
  }

  /** `:delete`: `config_path.delete(config_key) if config_path.key?(config_key)`. */
  function DeleteOn(obj: Value, ck: Value): (r: (Value, Result<bool>))
    ensures obj.Map? ==> r.1 == Ok(true) && r.0.Map? && !HasKey(r.0.entries, ck)
    ensures obj.Map? ==> forall k :: k != ck ==>
      HasKey(r.0.entries, k) == HasKey(obj.entries, k) && Lookup(r.0.entries, k) == Lookup(obj.entries, k)
    ensures obj.Map? && !HasKey(obj.entries, ck) ==> r.0 == obj
    ensures !obj.Map? ==> r == (obj, Err(NameError))
  {
    if obj.Map? then (if HasKey(obj.entries, ck) then Map(Remove(obj.entries, ck)) else obj, Ok(true))
    else (obj, Err(NameError))
  }

  /** The second half of `:append`, once `x` is the value under the key:
      `x.concat(value.to_s) unless x.match?(value)`. */
  function AppendTo(obj: Value, ck: Value, x: Value, value: Value): (r: (Value, Result<bool>))
  {
    if !(x.Str? || x.Sym?) then (obj, Err(NameError))
    else if !value.Str? then (obj, Err(TypeError))
    else if Text.Contains(ToS(x), value.s) then (obj, Ok(true))
    else if x.Sym? then (obj, Err(NameError))
    else (PutChild(obj, ck, Str(x.s + value.s)), Ok(true))
  }

  /** `:append`: `config_path[config_key] ||= ''`, then the concatenation.
      The empty String stays in place when the concatenation then fails. */
  function AppendOn(obj: Value, ck: Value, value: Value): (r: (Value, Result<bool>))
  {
    match Index(obj, ck)
    case Err(e) => (obj, Err(e))
    case Ok(x) =>
      if Truthy(x) then AppendTo(obj, ck, x, value)
      else match AssignIndex(obj, ck, Str(""))
        case Err(e) => (obj, Err(e))
        case Ok(o) => AppendTo(o, ck, Str(""), value)
  }

  /** Appending to a Hash: a missing key gets the value, an existing String
      gets it appended unless it already contains it. */
  lemma AppendToHash(es: seq<Entry>, ck: Value, value: Value)
    requires value.Str?
    ensures var x := Lookup(es, ck);
      var r := AppendOn(Map(es), ck, value);
      (!Truthy(x) ==> r == (Map(Store(es, ck, value)), Ok(true))) &&
      (x.Str? && Text.Contains(x.s, value.s) ==> r == (Map(es), Ok(true))) &&
      (x.Str? && !Text.Contains(x.s, value.s) ==> r == (Map(Store(es, ck, Str(x.s + value.s))), Ok(true)))
  {
    var x := Lookup(es, ck);
    if !Truthy(x) {
      var o := Store(es, ck, Str(""));
      StoreStore(o, ck, Str(""), value);
      assert Store(Store(es, ck, Str("")), ck, value) == Store(es, ck, value) by {
        StoreTwice(es, ck, Str(""), value);
      }
      if !Text.Contains("", value.s) {
        assert ("" + value.s) == value.s;
      } else {
        assert value.s == [] by { EmptyContains(value.s); }
      }
    }
  }

  /** Only the empty string occurs in the empty string. */
  lemma EmptyContains(sub: string)
    requires Text.Contains("", sub)
    ensures sub == []
  {
  }

  /** Storing twice under a key keeps the second value, whether or not the key was there. */
  lemma StoreTwice(es: seq<Entry>, k: Value, a: Value, b: Value)
    ensures Store(Store(es, k, a), k, b) == Store(es, k, b)
  {
    if HasKey(es, k) {
      StoreStore(es, k, a, b);
    } else {
      var r := es + [Entry(k, a)];
      assert Find(r, k) == Some(|es|) by { FindPrefix(r, r, k, |es|); }
      assert r[|es| := Entry(k, b)] == es + [Entry(k, b)];
    }
  }

  /** Appending the same String twice is appending it once. */
  lemma AppendTwice(es: seq<Entry>, ck: Value, value: Value)
    requires value.Str?
    requires AppendOn(Map(es), ck, value).1.Ok?
    ensures var once := AppendOn(Map(es), ck, value).0;
      AppendOn(once, ck, value) == (once, Ok(true))
  {
    AppendToHash(es, ck, value);
    var x := Lookup(es, ck);
    var once := AppendOn(Map(es), ck, value).0;
    if !Truthy(x) {
      Text.ContainsSuffix([], value.s);
      assert [] + value.s == value.s;
    } else if x.Str? && !Text.Contains(x.s, value.s) {
      Text.ContainsSuffix(x.s, value.s);
    }
    AppendToHash(once.entries, ck, value);
  }

  /** `config_path[config_key] ||= []` followed by `.push(value)`. */
  function PushOnto(obj: Value, ck: Value, value: Value): (r: (Value, Result<bool>))
  {
    match Index(obj, ck)
    case Err(e) => (obj, Err(e))
    case Ok(x) =>
      if !Truthy(x) then
        match AssignIndex(obj, ck, List([]))
        case Err(e) => (obj, Err(e))
        case Ok(o) => (PutChild(o, ck, List([value])), Ok(true))
      else if x.List? then (PutChild(obj, ck, List(x.items + [value])), Ok(true))
      else (obj, Err(NameError))
  }

  /** `list[index].merge!(value)`: a shallow merge into the Hash at `index`. */
  function MergeAt(list: Value, index: nat, value: Value): (r: Result<Value>)
  {
    var e :- Index(list, Int(index));
    if !e.Map? then Err(NameError)
    else if !value.Map? then Err(TypeError)
    else Ok(PutChild(list, Int(index), Map(Merge(e.entries, value.entries))))
  }

  /** `idx.each { |i| list.delete_at(i) }` followed by `list.push(value)`. */
  function ReplaceIn(list: Value, idx: seq<nat>, value: Value): (r: Result<Value>)
    ensures list.List? ==> r == Ok(List(DeleteAll(list.items, idx) + [value]))
    ensures !list.List? ==> r == Err(NameError)
  {
    if list.List? then Ok(List(DeleteAll(list.items, idx) + [value])) else Err(NameError)
  }

  /** `:key_push`: the push sub-action on the Array under the key. */
  function KeyPushOn(obj: Value, ck: Value, value: Value, push: Push, idx: seq<nat>): (r: (Value, Result<bool>))
    requires push == MergeOne ==> |idx| == 1
  {
    match push
    case Create => PushOnto(obj, ck, value)
    case MergeOne =>
      (match Index(obj, ck)
       case Err(e) => (obj, Err(e))
       case Ok(list) =>
         match MergeAt(list, idx[0], value)
         case Err(e) => (obj, Err(e))
         case Ok(l2) => (PutChild(obj, ck, l2), Ok(true)))
    case Replace =>
      match Index(obj, ck)
      case Err(e) => (obj, Err(e))
      case Ok(list) =>
        match ReplaceIn(list, idx, value)
        case Err(e) => (obj, Err(e))
        case Ok(l2) => (PutChild(obj, ck, l2), Ok(true))
  }

  /** `:array_push`: the push sub-action on the Array at the path itself. */
  function ArrayPushOn(obj: Value, value: Value, push: Push, idx: seq<nat>): (r: (Value, Result<bool>))
    requires push == MergeOne ==> |idx| == 1
  {
    match push
    case Create => if obj.List? then (List(obj.items + [value]), Ok(true)) else (obj, Err(NameError))
    case MergeOne =>
      (match MergeAt(obj, idx[0], value)
       case Err(e) => (obj, Err(e))
       case Ok(o) => (o, Ok(true)))
    case Replace =>
      match ReplaceIn(obj, idx, value)
      case Err(e) => (obj, Err(e))
      case Ok(o) => (o, Ok(true))
  }

  /** `idx.each { |i| list.delete_at(i) } if present`. */
  function DeleteFrom(list: Value, present: bool, idx: seq<nat>): (r: Result<Value>)
    ensures !present ==> r == Ok(list)
    ensures present && list.List? ==> r == Ok(List(DeleteAll(list.items, idx)))
    ensures present && !list.List? ==> r == Err(NameError)
  {
    if !present then Ok(list)
    else if list.List? then Ok(List(DeleteAll(list.items, idx)))
    else Err(NameError)
  }

  /** `:key_delete_match_self`: `return if nil_or_empty?(config_path)`, then
      one `delete_if` pass per pair of the match map over the collection
      under the key.  Nothing is assigned: the passes change that collection
      in place (keeping what they deleted before a test raised), and a value
      under the key that is not a collection stays as it was. */
  function MatchSelfOn(obj: Value, ck: Value, criteria: seq<Entry>): (r: (Value, Result<bool>))
    ensures Utils.NilOrEmpty([obj]) ==> r == (obj, Ok(false))
    ensures !Utils.NilOrEmpty([obj]) && criteria == [] ==> r == (obj, Ok(true))
    ensures !Utils.NilOrEmpty([obj]) && criteria != [] && Index(obj, ck).Ok? && !IsContainer(Index(obj, ck).value) ==>
      r == (obj, Err(NameError))
    ensures r.0 != obj ==>
      Index(obj, ck).Ok? && IsContainer(Index(obj, ck).value) &&
      r.0 == PutChild(obj, ck, DeleteIfAny(Index(obj, ck).value, criteria).0)
    ensures obj.Map? ==>
      r.0.Map? && HasKey(r.0.entries, ck) == HasKey(obj.entries, ck) &&
      forall k :: k != ck ==> HasKey(r.0.entries, k) == HasKey(obj.entries, k) && Lookup(r.0.entries, k) == Lookup(obj.entries, k)
  {
    if Utils.NilOrEmpty([obj]) then (obj, Ok(false))
    else if criteria == [] then (obj, Ok(true))
    else match Index(obj, ck)
      case Err(e) => (obj, Err(e))
      case Ok(c) =>
        var (c2, res) := DeleteIfAny(c, criteria);
        (if IsContainer(c) then PutChild(obj, ck, c2) else obj, if res.Err? then Err(res.error) else Ok(true))
  }

  /** `:key_delete` once the list under the key is known not to be nil or
      empty: `idx.each { |i| config_path[config_key].delete_at(i) } if present`. */
  function KeyDeleteOn(obj: Value, ck: Value, present: bool, idx: seq<nat>): (r: (Value, Result<bool>))
    ensures !present ==> r == (obj, Ok(true))
  {
    if !present then (obj, Ok(true))
    else match Index(obj, ck)
      case Err(e) => (obj, Err(e))
      case Ok(list) =>
        match DeleteFrom(list, true, idx)
        case Err(e) => (obj, Err(e))
        case Ok(l2) => (PutChild(obj, ck, l2), Ok(true))
  }

  /** `:array_delete`: the matched items are deleted from the Array at the path. */
  function ArrayDeleteOn(obj: Value, present: bool, idx: seq<nat>): (r: (Value, Result<bool>))
    ensures !present ==> r == (obj, Ok(true))
  {
    match DeleteFrom(obj, present, idx)
    case Err(e) => (obj, Err(e))
    case Ok(o) => (o, Ok(true))
  }

  // ---------------------------------------------------------------------
  // accumulator_config
  // ---------------------------------------------------------------------

  /** The actions `accumulator_config` accepts. */
  predicate KnownAction(action: Value)
  {
    action in [Sym("set"), Sym("delete"), Sym("append"), Sym("key_push"), Sym("key_delete"),
               Sym("key_delete_match_self"), Sym("array_push"), Sym("array_delete")]
  }

  /** The object written back where it was found, then the result: nil
      after an early `return`, `config_path[config_key]` when a key was
      given, the whole object otherwise. */
  function Finish(t: Value, place: Place, key: Value, ck: Value, out: (Value, Result<bool>)): (r: (Value, Result<Value>))
    ensures place.InTree? && GetAt(t, place.path).Some? ==> Deref(r.0, place) == out.0
    ensures place.Detached? ==> r.0 == t
    ensures out.1.Err? ==> r.1 == Err(out.1.error)
    ensures out.1 == Ok(false) ==> r.1 == Ok(Nil)
    ensures out.1 == Ok(true) && Truthy(key) ==> r.1 == Index(out.0, ck)
    ensures out.1 == Ok(true) && !Truthy(key) ==> r.1 == Ok(out.0)
  {
    var t2 := Write(t, place, out.0).0;
    if out.1.Err? then (t2, Err(out.1.error))
    else if !out.1.value then (t2, Ok(Nil))
    else (t2, if Truthy(key) then Index(out.0, ck) else Ok(out.0))
  }

  /** The configuration object: the initialised path, or for `:array_contained`
      the contained parent found below it. */
  function ConfigPlace(t: Value, path: seq<Value>, pt: Options.PathType, listAction: bool, opts: seq<Entry>): (r: (Value, Result<Place>))
    ensures r.1.Ok? ==> r.0 == PathInit(t, path, listAction).0 && PathInit(t, path, listAction).1.Ok?
    ensures pt != Options.ArrayContained ==>
      r.1 == (if PathInit(t, path, listAction).1.Ok? then Ok(InTree(PathInit(t, path, listAction).1.value))
              else Err(PathInit(t, path, listAction).1.error))
  {
    if pt == Options.ArrayContained then ContainingPathInit(t, path, listAction, opts)
    else
      var init := PathInit(t, path, listAction);
      var t1 := init.0;
      var h := init.1;
      (t1, if h.Err? then Err(h.error) else Ok(InTree(h.value)))
  }

  /** `key_push` and `array_push` once the match index `ix` (and the content
      it left) is known. */
  function Pushed(ix: (Value, Result<Option<seq<nat>>>), place: Place, action: Value, key: Value, ck: Value, value: Value, force: bool): (r: (Value, Result<Value>))
  {
    var t2 := ix.0;
    var found := ix.1;
    if found.Err? then (t2, Err(found.error))
    else
      var idx := Positions(found.value);
      match PushDecision(Present(found.value), idx, value, force)
      case Err(e) => (t2, Err(e))
      case Ok(push) => Finish(t2, place, key, ck, PushOn(Deref(t2, place), action, ck, value, push, idx))
  }

  /** The push sub-action on the list under the key (`key_push`) or on the
      Array at the path (`array_push`). */
  function PushOn(obj: Value, action: Value, ck: Value, value: Value, push: Push, idx: seq<nat>): (r: (Value, Result<bool>))
    requires push == MergeOne ==> |idx| == 1
  {
    if action == Sym("key_push") then KeyPushOn(obj, ck, value, push, idx) else ArrayPushOn(obj, value, push, idx)
  }

  /** `key_delete` past its early return, once the match index is known. */
  function KeyDeleted(ix: (Value, Result<Option<seq<nat>>>), place: Place, key: Value, ck: Value): (r: (Value, Result<Value>))
  {
    var t2 := ix.0;
    var found := ix.1;
    if found.Err? then (t2, Err(found.error))
    else Finish(t2, place, key, ck, KeyDeleteOn(Deref(t2, place), ck, Present(found.value), Positions(found.value)))
  }

  /** `key_delete`: `return if nil_or_empty?(config_path[config_key])`, then the deletion. */
  function KeyDeleteAt(t: Value, place: Place, key: Value, ck: Value, res: Resource): (r: (Value, Result<Value>))
  {
    match Index(Deref(t, place), ck)
    case Err(e) => (t, Err(e))
    case Ok(list) =>
      if Utils.NilOrEmpty([list]) then (t, Ok(Nil))
      else KeyDeleted(ArrayIndex(t, res), place, key, ck)
  }

  /** `array_delete` once the match index is known. */
  function ArrayDeleted(ix: (Value, Result<Option<seq<nat>>>), place: Place, key: Value, ck: Value): (r: (Value, Result<Value>))
  {
    var t2 := ix.0;
    var found := ix.1;
    if found.Err? then (t2, Err(found.error))
    else Finish(t2, place, key, ck, ArrayDeleteOn(Deref(t2, place), Present(found.value), Positions(found.value)))
  }

  /** The action itself, on the object at `place` whose key `ck` is already translated. */
  function Perform(t: Value, place: Place, action: Value, key: Value, ck: Value, value: Value, force: bool, res: Resource): (r: (Value, Result<Value>))
    ensures !KnownAction(action) ==> r == (t, Err(ArgumentError))
  {
    var obj := Deref(t, place);
    if action == Sym("key_push") || action == Sym("array_push") then
      Pushed(ArrayIndex(t, res), place, action, key, ck, value, force)
    else if action == Sym("set") then Finish(t, place, key, ck, SetOn(obj, ck, value))
    else if action == Sym("delete") then Finish(t, place, key, ck, DeleteOn(obj, ck))
    else if action == Sym("append") then Finish(t, place, key, ck, AppendOn(obj, ck, value))
    else if action == Sym("key_delete") then KeyDeleteAt(t, place, key, ck, res)
    else if action == Sym("key_delete_match_self") then Finish(t, place, key, ck, MatchSelfOn(obj, ck, res.criteria))
    else if action == Sym("array_delete") then ArrayDeleted(ArrayIndex(t, res), place, key, ck)
    else (t, Err(ArgumentError))
  }

  /** `accumulator_config` once the path and its type are known. */
  function ConfigAt(t: Value, path: seq<Value>, pt: Options.PathType, action: Value, key: Value, value: Value, force: bool, res: Resource): (r: (Value, Result<Value>))
    ensures r.1.Ok? ==> KnownAction(action) && ConfigPlace(t, path, pt, IsListAction(action), res.opts).1.Ok?
    ensures !KnownAction(action) ==> r.1.Err? && r.0 == ConfigPlace(t, path, pt, IsListAction(action), res.opts).0
  {
    var cp := ConfigPlace(t, path, pt, IsListAction(action), res.opts);
    var t1 := cp.0;
    var place := cp.1;
    if place.Err? then (t1, Err(place.error))
    else match SectionRead.TranslatedKey(res.opts, key)
      case Err(e) => (t1, Err(e))
      case Ok(ck) => Perform(t1, place.value, action, key, ck, value, force, res)
  }

  /** `accumulator_config(action:, key:, value:, force_replace:)`: the
      content afterwards and the resultant configuration. */
  function Config(t: Value, action: Value, key: Value, value: Value, force: bool, res: Resource): (r: (Value, Result<Value>))
    ensures r.1.Ok? ==>
      KnownAction(action) && ConfigPath.ResourcePath(res.typeName, res.opts).Ok? && Options.PathTypeOf(res.opts).Ok?
    ensures ConfigPath.ResourcePath(res.typeName, res.opts).Err? ==> r == (t, Err(ConfigPath.ResourcePath(res.typeName, res.opts).error))
  {
    match ConfigPath.ResourcePath(res.typeName, res.opts)
    case Err(e) => (t, Err(e))
    case Ok(path) =>
      match Options.PathTypeOf(res.opts)
      case Err(e) => (t, Err(e))
      case Ok(pt) => ConfigAt(t, path, pt, action, key, value, force, res)
  }

  // ---------------------------------------------------------------------
  // What each action does
  // ---------------------------------------------------------------------

  /** The positions of an index list, as a set. */
  function Gone(idx: seq<nat>): set<nat>
  {
    set a | 0 <= a < |idx| :: idx[a]
  }

  /** Deleting distinct positions, largest first, shortens the list by their number. */
  lemma {:induction false} DeleteAllLength(xs: seq<Value>, idx: seq<nat>)
    requires Descending(idx, |xs|)
    ensures |DeleteAll(xs, idx)| == |xs| - |idx|
    decreases |idx|
  {
    if idx != [] {
      var ys := DeleteAt(xs, idx[0]);
      assert Descending(idx[1..], |ys|) by {
        forall a | 0 <= a < |idx[1..]| ensures idx[1..][a] < |ys| {
          assert idx[1..][a] == idx[a + 1] && idx[a + 1] < idx[0];
        }
      }
      DeleteAllLength(ys, idx[1..]);
    }
  }

  /** A single match merged into: the Array keeps its length and every
      other item, and the matched Hash takes the new value's keys, keeping
      its own where the value has none (a shallow merge). */
  lemma MergeIntoMatch(xs: seq<Value>, i: nat, value: Value)
    requires i < |xs| && xs[i].Map? && value.Map? && UniqueKeys(value.entries)
    ensures var r := ArrayPushOn(List(xs), value, MergeOne, [i]);
      r.1 == Ok(true) && r.0.List? && |r.0.items| == |xs| &&
      (forall j :: 0 <= j < |xs| && j != i ==> r.0.items[j] == xs[j]) &&
      r.0.items[i].Map? &&
      forall k :: Lookup(r.0.items[i].entries, k) ==
        if HasKey(value.entries, k) then Lookup(value.entries, k) else Lookup(xs[i].entries, k)
  {
    var m := Map(Merge(xs[i].entries, value.entries));
    assert MergeAt(List(xs), i, value) == Ok(List(xs[i := m]));
    forall k ensures Lookup(m.entries, k) ==
      if HasKey(value.entries, k) then Lookup(value.entries, k) else Lookup(xs[i].entries, k)
    {
      MergeLookup(xs[i].entries, value.entries, k);
    }
  }

  /** Several matches, or a forced push: the matches go and the value is
      appended, so the Array ends with the value and loses one item per match
      but the value. */
  lemma ReplaceMatches(xs: seq<Value>, idx: seq<nat>, value: Value)
    requires Descending(idx, |xs|)
    ensures var r := ArrayPushOn(List(xs), value, Replace, idx);
      r == (List(Without(xs, Gone(idx)) + [value]), Ok(true)) &&
      |r.0.items| == |xs| - |idx| + 1
  {
    DeleteDescending(xs, idx);
    DeleteAllLength(xs, idx);
  }

  /** No match: `key_push` appends the value to the Array under the key,
      creating the Array when the key holds nothing. */
  lemma KeyPushCreates(es: seq<Entry>, ck: Value, value: Value, idx: seq<nat>)
    ensures var x := Lookup(es, ck);
      var r := KeyPushOn(Map(es), ck, value, Create, idx);
      (!Truthy(x) ==> r == (Map(Store(es, ck, List([value]))), Ok(true))) &&
      (x.List? ==> r == (Map(Store(es, ck, List(x.items + [value]))), Ok(true))) &&
      (Truthy(x) && !x.List? ==> r == (Map(es), Err(NameError)))
  {
    if !Truthy(Lookup(es, ck)) {
      StoreTwice(es, ck, List([]), List([] + [value]));
      assert [] + [value] == [value];
    }
  }

  /** `array_delete` of the matches: exactly the matched positions go, the
      others keep their order, and what remains is what some unmatched
      position held. */
  lemma DeleteMatches(xs: seq<Value>, idx: seq<nat>)
    requires Descending(idx, |xs|) && idx != []
    ensures var r := ArrayDeleteOn(List(xs), true, idx);
      r == (List(Without(xs, Gone(idx))), Ok(true)) &&
      |r.0.items| == |xs| - |idx| &&
      forall y :: y in r.0.items <==> exists p :: 0 <= p < |xs| && p !in Gone(idx) && xs[p] == y
  {
    DeleteDescending(xs, idx);
    DeleteAllLength(xs, idx);
    forall y ensures y in Without(xs, Gone(idx)) <==> exists p :: 0 <= p < |xs| && p !in Gone(idx) && xs[p] == y {
      WithoutMembers(xs, Gone(idx), y);
    }
  }

  /** `key_delete` of the matches under the key: exactly the matched
      positions go from the Array under the key, the others keep their
      order, and every other key of the Hash stays as it was. */
  lemma KeyDeleteMatches(es: seq<Entry>, ck: Value, xs: seq<Value>, idx: seq<nat>)
    requires Lookup(es, ck) == List(xs) && Descending(idx, |xs|) && idx != []
    ensures var r := KeyDeleteOn(Map(es), ck, true, idx);
      r == (Map(Store(es, ck, List(Without(xs, Gone(idx))))), Ok(true)) &&
      |Without(xs, Gone(idx))| == |xs| - |idx| &&
      forall y :: y in Without(xs, Gone(idx)) <==> exists p :: 0 <= p < |xs| && p !in Gone(idx) && xs[p] == y
  {
    DeleteDescending(xs, idx);
    DeleteAllLength(xs, idx);
    forall y ensures y in Without(xs, Gone(idx)) <==> exists p :: 0 <= p < |xs| && p !in Gone(idx) && xs[p] == y {
      WithoutMembers(xs, Gone(idx), y);
    }
  }

  /** `key_push` merging into a single match under the key: the Array under
      the key keeps its length and every other item, the matched Hash takes
      the new value's keys over its own, and the other keys of the Hash stay. */
  lemma KeyPushMerge(es: seq<Entry>, ck: Value, xs: seq<Value>, i: nat, value: Value)
    requires Lookup(es, ck) == List(xs) && i < |xs| && xs[i].Map? && value.Map? && UniqueKeys(value.entries)
    ensures var r := KeyPushOn(Map(es), ck, value, MergeOne, [i]);
      r.1 == Ok(true) && r.0.Map? &&
      (forall k :: k != ck ==> HasKey(r.0.entries, k) == HasKey(es, k) && Lookup(r.0.entries, k) == Lookup(es, k)) &&
      var l := Lookup(r.0.entries, ck);
      l.List? && |l.items| == |xs| &&
      (forall j :: 0 <= j < |xs| && j != i ==> l.items[j] == xs[j]) &&
      l.items[i].Map? &&
      forall k :: Lookup(l.items[i].entries, k) ==
        if HasKey(value.entries, k) then Lookup(value.entries, k) else Lookup(xs[i].entries, k)
  {
    var m := Map(Merge(xs[i].entries, value.entries));
    assert MergeAt(List(xs), i, value) == Ok(List(xs[i := m]));
    assert KeyPushOn(Map(es), ck, value, MergeOne, [i]) == (Map(Store(es, ck, List(xs[i := m]))), Ok(true));
    forall k ensures Lookup(m.entries, k) ==
      if HasKey(value.entries, k) then Lookup(value.entries, k) else Lookup(xs[i].entries, k)
    {
      MergeLookup(xs[i].entries, value.entries, k);
    }
  }

  /** `key_push` replacing under the key: the matches go from the Array
      under the key and the value is appended to it. */
  lemma KeyPushReplace(es: seq<Entry>, ck: Value, xs: seq<Value>, idx: seq<nat>, value: Value)
    requires Lookup(es, ck) == List(xs) && Descending(idx, |xs|)
    ensures var r := KeyPushOn(Map(es), ck, value, Replace, idx);
      r == (Map(Store(es, ck, List(Without(xs, Gone(idx)) + [value]))), Ok(true)) &&
      |Without(xs, Gone(idx)) + [value]| == |xs| - |idx| + 1
  {
    DeleteDescending(xs, idx);
    DeleteAllLength(xs, idx);
  }

  /** `key_delete_match_self` on a non-empty Hash whose key holds an Array:
      the items kept are those matching none of the match pairs. */
  lemma {:induction false} MatchSelfKeepsUnmatched(es: seq<Entry>, ck: Value, xs: seq<Value>, criteria: seq<Entry>)
    requires es != [] && Lookup(es, ck) == List(xs)
    requires DeleteIfAny(List(xs), criteria).1.Ok?
    ensures var r := MatchSelfOn(Map(es), ck, criteria);
      r.1 == Ok(true) && r.0.Map? && Lookup(r.0.entries, ck).List? &&
      forall y :: y in Lookup(r.0.entries, ck).items <==>
        y in xs && forall j :: 0 <= j < |criteria| ==> Test(y, criteria[j].key, criteria[j].val) == Ok(false)
  {
    Utils.NilOrEmptySingle(Map(es));
    DeleteIfAnyIsUnion(xs, criteria);
    var l2 := DeleteIfAny(List(xs), criteria).0;
    assert Index(Map(Store(es, ck, l2)), ck) == Ok(l2);
  }

  // ---------------------------------------------------------------------
  // Properties of accumulator_config
  // ---------------------------------------------------------------------

  /** Once `accumulator_config` has initialised the path, computing the
      match index (which initialises the same path again) leaves the content
      as it is, whatever the Chef action. */
  lemma ArrayIndexKeepsContent(t: Value, res: Resource, listAction: bool)
    requires ConfigPath.ResourcePath(res.typeName, res.opts).Ok?
    requires PathInit(t, ConfigPath.ResourcePath(res.typeName, res.opts).value, listAction).1.Ok?
    ensures var t1 := PathInit(t, ConfigPath.ResourcePath(res.typeName, res.opts).value, listAction).0;
      ArrayIndex(t1, res).0 == t1
  {
    var path := ConfigPath.ResourcePath(res.typeName, res.opts).value;
    PathInitIdempotent(t, path, listAction, IsListAction(res.chefAction));
    var t1 := PathInit(t, path, listAction).0;
    assert PathInit(t1, path, IsListAction(res.chefAction)).0 == t1;
  }

  /** `key_delete` with nothing under the key returns nil and changes nothing. */
  lemma KeyDeleteOfNothing(t: Value, place: Place, key: Value, ck: Value, value: Value, force: bool, res: Resource)
    requires Index(Deref(t, place), ck).Ok? && Utils.NilOrEmpty([Index(Deref(t, place), ck).value])
    ensures Perform(t, place, Sym("key_delete"), key, ck, value, force, res) == (t, Ok(Nil))
  {
  }

  /** `key_delete_match_self` on a nil or empty object returns nil and changes nothing. */
  lemma MatchSelfOfNothing(t: Value, h: seq<Step>, key: Value, ck: Value, value: Value, force: bool, res: Resource)
    requires Utils.NilOrEmpty([Deref(t, InTree(h))])
    ensures Perform(t, InTree(h), Sym("key_delete_match_self"), key, ck, value, force, res) == (t, Ok(Nil))
  {
    if GetAt(t, h).Some? {
      PutGet(t, h);
    }
  }

  /** `set` on a Hash in the tree stores the value under the key, and with a
      key given the result is that value. */
  lemma SetThenResult(t: Value, h: seq<Step>, key: Value, ck: Value, value: Value, force: bool, res: Resource)
    requires GetAt(t, h).Some? && GetAt(t, h).value.Map? && Truthy(key)
    ensures Perform(t, InTree(h), Sym("set"), key, ck, value, force, res) ==
      (PutAt(t, h, Map(Store(GetAt(t, h).value.entries, ck, value))), Ok(value))
  {
    var es := GetAt(t, h).value.entries;
    assert Index(Map(Store(es, ck, value)), ck) == Ok(value);
  }

  /** Without a key the result is the whole object the action left at its place. */
  lemma ResultWithoutKey(t: Value, h: seq<Step>, ck: Value, value: Value, force: bool, res: Resource)
    requires GetAt(t, h).Some? && GetAt(t, h).value.Map?
    ensures var r := Perform(t, InTree(h), Sym("delete"), Nil, ck, value, force, res);
      r.1.Ok? && GetAt(r.0, h) == Some(r.1.value)
  {
    var out := DeleteOn(GetAt(t, h).value, ck);
    assert Perform(t, InTree(h), Sym("delete"), Nil, ck, value, force, res) == Finish(t, InTree(h), Nil, ck, out);
    assert Write(t, InTree(h), out.0).0 == PutAt(t, h, out.0);
    GetPut(t, h, out.0);
  }
}
