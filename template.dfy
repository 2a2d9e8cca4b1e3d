/** The configuration template whose `variables[:config]` every resource
    edits in place: one object holding the content, and the methods of
    `accumulator_config` that change it step by step.  Each method is
    proved to leave the content and return the outcome that the functions
    of `Paths` and `Accumulator` specify. */
module Template {
  import opened Tree
  import opened Lists
  import Paths
  import Accumulator
  import ConfigPath
  import Options
  import Contained
  import SectionRead
  import Utils

  /** `ys.delete_at(i)` for each `i` of `idx`, in turn. */
  method DeleteIndices(xs: seq<Value>, idx: seq<nat>) returns (ys: seq<Value>)
    ensures ys == DeleteAll(xs, idx)
  {
    ys := xs;
    var i := 0;
    while i < |idx|
      invariant 0 <= i <= |idx|
      invariant DeleteAll(ys, idx[i..]) == DeleteAll(xs, idx)
    {
      assert idx[i..][0] == idx[i] && idx[i..][1..] == idx[i + 1..];
      ys := DeleteAt(ys, idx[i]);
      i := i + 1;
    }
  }

  /** `match.each { |k, v| c.delete_if { |e| e[k].eql?(v) } }`, stopping at
      the first pass that raises. */
  method DeleteMatching(c: Value, pairs: seq<Entry>) returns (c2: Value, res: Result<bool>)
    ensures (c2, res) == DeleteIfAny(c, pairs)
  {
    c2 := c;
    var i := 0;
    while i < |pairs|
      invariant 0 <= i <= |pairs|
      invariant DeleteIfAny(c2, pairs[i..]) == DeleteIfAny(c, pairs)
    {
      assert pairs[i..][0] == pairs[i] && pairs[i..][1..] == pairs[i + 1..];
      var (c3, r3) := DeleteIf(c2, pairs[i].key, pairs[i].val);
      if r3.Err? {
        return c3, r3;
      }
      c2 := c3;
      i := i + 1;
    }
    res := Ok(true);
  }

  /** The reference `r` after the prefix `h`, or the error. */
  function Below(h: seq<Step>, r: Result<seq<Step>>): Result<seq<Step>>
  {
    if r.Ok? then Ok(h + r.value) else r
  }

  /** The content and outcome once the walk of `rest` has run from the
      object at `cur`. */
  ghost function Resumed(t: Value, cur: seq<Step>, rest: seq<Value>, listAction: bool, last: Value): (Value, Result<seq<Step>>)
    requires GetAt(t, cur).Some?
  {
    var sub := Paths.InitAt(GetAt(t, cur).value, rest, listAction, last);
    (PutAt(t, cur, sub.0), Below(cur, sub.1))
  }

  lemma {:induction false} WalkStart(t: Value, path: seq<Value>, listAction: bool, last: Value)
    ensures Resumed(t, [], path[0..], listAction, last) == Paths.InitAt(t, path, listAction, last)
  {
    assert path[0..] == path;
    var r := Paths.InitAt(t, path, listAction, last).1;
    if r.Ok? {
      assert [] + r.value == r.value;
    }
  }

  lemma {:induction false} WalkFails(t: Value, cur: seq<Step>, node: Value, rest: seq<Value>, listAction: bool, last: Value)
    requires GetAt(t, cur) == Some(node) && rest != [] && Paths.Level(node, rest[0], listAction, last).Err?
    ensures Resumed(t, cur, rest, listAction, last) == (t, Err(Paths.Level(node, rest[0], listAction, last).error))
  {
    PutGet(t, cur);
  }

  /** The reference found below one attached step, seen from `cur`. */
  lemma BelowAttach(cur: seq<Step>, c1: Value, s: Step, sub: (Value, Result<seq<Step>>))
    requires GetAt(c1, [s]).Some?
    ensures Below(cur + [s], sub.1) == Below(cur, Paths.Attach(c1, s, sub).1)
  {
    if sub.1.Ok? {
      assert cur + ([s] + sub.1.value) == (cur + [s]) + sub.1.value;
    }
  }

  lemma {:induction false} WalkStep(t: Value, cur: seq<Step>, node: Value, rest: seq<Value>, listAction: bool, last: Value, c1: Value, child: Value)
    requires GetAt(t, cur) == Some(node) && rest != []
    requires Paths.Level(node, rest[0], listAction, last) == Ok((c1, child))
    ensures GetAt(PutAt(t, cur, c1), cur + [StepFor(c1, rest[0])]) == Some(child)
    ensures Resumed(PutAt(t, cur, c1), cur + [StepFor(c1, rest[0])], rest[1..], listAction, last) ==
      Resumed(t, cur, rest, listAction, last)
  {
    var s := StepFor(c1, rest[0]);
    var sub := Paths.InitAt(child, rest[1..], listAction, last);
    assert Paths.InitAt(node, rest, listAction, last) == Paths.Attach(c1, s, sub);
    PutThrough(t, cur, c1, s, sub.0);
    BelowAttach(cur, c1, s, sub);
  }

  lemma {:induction false} WalkEnds(t: Value, cur: seq<Step>, listAction: bool, last: Value)
    requires GetAt(t, cur).Some?
    ensures Resumed(t, cur, [], listAction, last) == (t, Ok(cur))
  {
    PutGet(t, cur);
    assert cur + [] == cur;
  }

  class ConfigTemplate {
    var content: Value

    constructor (init: Value)
      ensures content == init
    {
      content := init;
    }

    /** The loop `path.each { |l| config_path[l] ||= ...; config_path = config_path[l] }`. */
    method Walk(path: seq<Value>, listAction: bool, last: Value) returns (h: Result<seq<Step>>)
      modifies this
      ensures (content, h) == Paths.InitAt(old(content), path, listAction, last)
    {
      ghost var target := Paths.InitAt(content, path, listAction, last);
      var cur: seq<Step> := [];
      var i := 0;
      WalkStart(content, path, listAction, last);
      while i < |path|
        invariant 0 <= i <= |path|
        invariant GetAt(content, cur).Some?
        invariant Resumed(content, cur, path[i..], listAction, last) == target
        decreases |path| - i
      {
        var node := GetAt(content, cur).value;
        var lv := Paths.Level(node, path[i], listAction, last);
        if lv.Err? {
          WalkFails(content, cur, node, path[i..], listAction, last);
          return Err(lv.error);
        }
        var c1 := lv.value.0;
        var s := StepFor(c1, path[i]);
        WalkStep(content, cur, node, path[i..], listAction, last, c1, lv.value.1);
        assert path[i..][1..] == path[i + 1..];
        content := PutAt(content, cur, c1);
        cur := cur + [s];
        i := i + 1;
      }
      WalkEnds(content, cur, listAction, last);
      h := Ok(cur);
    }

    /** `accumulator_config_path_init(action, *path)`. */
    method PathInit(path: seq<Value>, listAction: bool) returns (h: Result<seq<Step>>)
      modifies this
      ensures (content, h) == Paths.PathInit(old(content), path, listAction)
    {
      if Paths.AllNil(path) {
        return Ok([]);
      }
      var d := Dig(content, path);
      if d.Err? {
        return Err(d.error);
      }
      if IsContainer(d.value) {
        return Ok(Paths.Locate(content, path));
      }
      h := Walk(path, listAction, path[|path| - 1]);
    }

    /** The loop `while (filter_key, filter_value, containing_key = filter_tuple.shift)`
        of the nested search. */
    method Search(search: Place, tuples: seq<(Value, Value, Value)>, tooMany: Error) returns (r: Result<Place>)
      ensures r == Paths.ContainedWalk(content, search, tuples, tooMany)
    {
      var cur := search;
      var i := 0;
      assert tuples[0..] == tuples;
      while i < |tuples|
        invariant 0 <= i <= |tuples|
        invariant Paths.ContainedWalk(content, cur, tuples[i..], tooMany) == Paths.ContainedWalk(content, search, tuples, tooMany)
      {
        if Deref(content, cur).Nil? {
          return Ok(cur);
        }
        assert tuples[i..][0] == tuples[i] && tuples[i..][1..] == tuples[i + 1..];
        var (k, v, ck) := tuples[i];
        var found := Paths.FilterWith(content, cur, k, v, tooMany);
        if found.Err? {
          return Err(found.error);
        }
        if Deref(content, found.value).Nil? {
          return found;
        }
        if Truthy(ck) {
          var next := Paths.FetchPlace(content, found.value, ck);
          if next.Err? {
            return Err(next.error);
          }
          cur := next.value;
        } else {
          cur := found.value;
        }
        i := i + 1;
      }
      r := Ok(cur);
    }

    /** `accumulator_config_containing_path_init(action:, path:)`. */
    method ContainingPathInit(path: seq<Value>, listAction: bool, opts: seq<Entry>) returns (r: Result<Place>)
      modifies this
      ensures (content, r) == Paths.ContainingPathInit(old(content), path, listAction, opts)
    {
      var d := Paths.Defaults(opts);
      if d.Err? {
        return Err(d.error);
      }
      var (fk, fv, ck) := d.value;
      var parent := PathInit(path, listAction);
      if parent.Err? {
        return Err(Paths.Rescue(parent.error));
      }
      if Paths.AllNil(path) {
        return Ok(InTree(parent.value));
      }
      var nested := Contained.ContainedNested(opts);
      if nested.Err? {
        return Err(Paths.Rescue(nested.error));
      }
      var found: Result<Place>;
      if nested.value {
        var tuples := SectionRead.Zip(fk.items, fv.items, SectionRead.DropLast(ck.items));
        found := Search(InTree(parent.value), tuples, FilterError);
      } else {
        found := Paths.Filter(content, InTree(parent.value), fk, fv);
      }
      r := if found.Err? then Err(Paths.Rescue(found.error)) else found;
    }

    /** `accumulator_config_array_index`. */
    method ArrayIndex(res: Accumulator.Resource) returns (r: Result<Option<seq<nat>>>)
      modifies this
      ensures (content, r) == Accumulator.ArrayIndex(old(content), res)
    {
      var path := ConfigPath.ResourcePath(res.typeName, res.opts);
      if path.Err? {
        return Err(path.error);
      }
      var pt := Options.PathTypeOf(res.opts);
      if pt.Err? {
        return Err(pt.error);
      }
      var listAction := Paths.IsListAction(res.chefAction);
      if pt.value == Options.ArrayPath {
        var h := PathInit(path.value, listAction);
        if h.Err? {
          return Err(h.error);
        }
        r := Accumulator.Matching(GetAt(content, h.value).value, res.criteria);
      } else if pt.value == Options.ArrayContained {
        var ck := Contained.ContainingKey(res.opts);
        if ck.Err? {
          return Err(ck.error);
        }
        var p := ContainingPathInit(path.value, listAction, res.opts);
        if p.Err? {
          return Err(p.error);
        }
        var parent := Deref(content, p.value);
        if !Truthy(parent) {
          return Ok(None);
        }
        var c := Fetch(parent, ck.value, List([]));
        r := if c.Err? then Err(c.error) else Accumulator.Matching(c.value, res.criteria);
      } else {
        r := Err(ArgumentError);
      }
    }

    /** Writes the object back at its place and produces the result. */
    method Finish(place: Place, key: Value, ck: Value, out: (Value, Result<bool>)) returns (r: Result<Value>)
      modifies this
      ensures (content, r) == Accumulator.Finish(old(content), place, key, ck, out)
    {
      content := Write(content, place, out.0).0;
      if out.1.Err? {
        r := Err(out.1.error);
      } else if !out.1.value {
        r := Ok(Nil);
      } else if Truthy(key) {
        r := Index(out.0, ck);
      } else {
        r := Ok(out.0);
      }
    }

    /** `key_push` and `array_push` once the match index is known. */
    method Push(found: Result<Option<seq<nat>>>, place: Place, action: Value, key: Value, ck: Value, value: Value, force: bool)
      returns (r: Result<Value>)
      modifies this
      ensures (content, r) == Accumulator.Pushed((old(content), found), place, action, key, ck, value, force)
    {
      if found.Err? {
        r := Err(found.error);
      } else {
        r := PushFound(found.value, place, action, key, ck, value, force);
      }
    }

    method PushFound(found: Option<seq<nat>>, place: Place, action: Value, key: Value, ck: Value, value: Value, force: bool)
      returns (r: Result<Value>)
      modifies this
      ensures (content, r) == Accumulator.Pushed((old(content), Ok(found)), place, action, key, ck, value, force)
    {
      var idx := Accumulator.Positions(found);
      var push := Accumulator.PushDecision(Accumulator.Present(found), idx, value, force);
      if push.Err? {
        r := Err(push.error);
      } else {
        var out := Accumulator.PushOn(Deref(content, place), action, ck, value, push.value, idx);
        assert Accumulator.Pushed((content, Ok(found)), place, action, key, ck, value, force) == Accumulator.Finish(content, place, key, ck, out);
        r := Finish(place, key, ck, out);
      }
    }

    /** `key_delete` once the match index is known: the matched items go
        from the list under the key. */
    method KeyDelete(found: Result<Option<seq<nat>>>, place: Place, key: Value, ck: Value) returns (r: Result<Value>)
      modifies this
      ensures (content, r) == Accumulator.KeyDeleted((old(content), found), place, key, ck)
    {
      if found.Err? {
        return Err(found.error);
      }
      var obj := Deref(content, place);
      var out: (Value, Result<bool>);
      if !Accumulator.Present(found.value) {
        out := (obj, Ok(true));
      } else {
        var list := Index(obj, ck);
        if list.Err? {
          out := (obj, Err(list.error));
        } else if !list.value.List? {
          out := (obj, Err(NameError));
        } else {
          var ys := DeleteIndices(list.value.items, found.value.value);
          out := (Accumulator.PutChild(obj, ck, List(ys)), Ok(true));
        }
      }
      assert out == Accumulator.KeyDeleteOn(obj, ck, Accumulator.Present(found.value), Accumulator.Positions(found.value));
      r := Finish(place, key, ck, out);
    }

    /** `key_delete_match_self`: the `delete_if` passes over the collection under the key. */
    method MatchSelf(place: Place, key: Value, ck: Value, criteria: seq<Entry>) returns (r: Result<Value>)
      modifies this
      ensures (content, r) == Accumulator.Finish(old(content), place, key, ck,
        Accumulator.MatchSelfOn(Deref(old(content), place), ck, criteria))
    {
      var obj := Deref(content, place);
      var out: (Value, Result<bool>);
      if Utils.NilOrEmpty([obj]) {
        out := (obj, Ok(false));
      } else if criteria == [] {
        out := (obj, Ok(true));
      } else {
        var c := Index(obj, ck);
        if c.Err? {
          out := (obj, Err(c.error));
        } else {
          var c2, res2 := DeleteMatching(c.value, criteria);
          out := (if IsContainer(c.value) then Accumulator.PutChild(obj, ck, c2) else obj,
                  if res2.Err? then Err(res2.error) else Ok(true));
        }
      }
      assert out == Accumulator.MatchSelfOn(obj, ck, criteria);
      r := Finish(place, key, ck, out);
    }

    /** `array_delete` once the match index is known: the matched items go
        from the Array at the path. */
    method ArrayDelete(found: Result<Option<seq<nat>>>, place: Place, key: Value, ck: Value) returns (r: Result<Value>)
      modifies this
      ensures (content, r) == Accumulator.ArrayDeleted((old(content), found), place, key, ck)
    {
      if found.Err? {
        return Err(found.error);
      }
      var obj := Deref(content, place);
      var out: (Value, Result<bool>);
      if !Accumulator.Present(found.value) {
        out := (obj, Ok(true));
      } else if !obj.List? {
        out := (obj, Err(NameError));
      } else {
        var ys := DeleteIndices(obj.items, found.value.value);
        out := (List(ys), Ok(true));
      }
      assert out == Accumulator.ArrayDeleteOn(obj, Accumulator.Present(found.value), Accumulator.Positions(found.value));
      r := Finish(place, key, ck, out);
    }

    /** The branches of the `case action` of `accumulator_config`, one by one. */
    method PushAction(place: Place, action: Value, key: Value, ck: Value, value: Value, force: bool, res: Accumulator.Resource)
      returns (r: Result<Value>)
      requires action == Sym("key_push") || action == Sym("array_push")
      modifies this
      ensures (content, r) == Accumulator.Perform(old(content), place, action, key, ck, value, force, res)
    {
      var found := ArrayIndex(res);
      r := Push(found, place, action, key, ck, value, force);
    }

    method HashAction(place: Place, action: Value, key: Value, ck: Value, value: Value, force: bool, res: Accumulator.Resource)
      returns (r: Result<Value>)
      requires action == Sym("set") || action == Sym("delete") || action == Sym("append")
      modifies this
      ensures (content, r) == Accumulator.Perform(old(content), place, action, key, ck, value, force, res)
    {
      var obj := Deref(content, place);
      var out := if action == Sym("set") then Accumulator.SetOn(obj, ck, value)
                 else if action == Sym("delete") then Accumulator.DeleteOn(obj, ck)
                 else Accumulator.AppendOn(obj, ck, value);
      r := Finish(place, key, ck, out);
    }

    method KeyDeleteAction(place: Place, key: Value, ck: Value, res: Accumulator.Resource)
      returns (r: Result<Value>)
      modifies this
      ensures (content, r) == Accumulator.KeyDeleteAt(old(content), place, key, ck, res)
    {
      var x := Index(Deref(content, place), ck);
      if x.Err? {
        r := Err(x.error);
      } else if Utils.NilOrEmpty([x.value]) {
        r := Ok(Nil);
      } else {
        var found := ArrayIndex(res);
        r := KeyDelete(found, place, key, ck);
      }
    }

    method MatchSelfAction(place: Place, key: Value, ck: Value, value: Value, force: bool, res: Accumulator.Resource)
      returns (r: Result<Value>)
      modifies this
      ensures (content, r) == Accumulator.Perform(old(content), place, Sym("key_delete_match_self"), key, ck, value, force, res)
    {
      r := MatchSelf(place, key, ck, res.criteria);
    }

    method ArrayDeleteAction(place: Place, key: Value, ck: Value, value: Value, force: bool, res: Accumulator.Resource)
      returns (r: Result<Value>)
      modifies this
      ensures (content, r) == Accumulator.Perform(old(content), place, Sym("array_delete"), key, ck, value, force, res)
    {
      var found := ArrayIndex(res);
      r := ArrayDelete(found, place, key, ck);
    }

    /** The `case action` of `accumulator_config`. */
    method Perform(place: Place, action: Value, key: Value, ck: Value, value: Value, force: bool, res: Accumulator.Resource)
      returns (r: Result<Value>)
      modifies this
      ensures (content, r) == Accumulator.Perform(old(content), place, action, key, ck, value, force, res)
    {
      if action == Sym("key_push") || action == Sym("array_push") {
        r := PushAction(place, action, key, ck, value, force, res);
      } else if action == Sym("set") || action == Sym("delete") || action == Sym("append") {
        r := HashAction(place, action, key, ck, value, force, res);
      } else {
        r := DeleteAction(place, action, key, ck, value, force, res);
      }
    }

    /** The removing actions, and the `ArgumentError` for an unknown one. */
    method DeleteAction(place: Place, action: Value, key: Value, ck: Value, value: Value, force: bool, res: Accumulator.Resource)
      returns (r: Result<Value>)
      requires action !in {Sym("key_push"), Sym("array_push"), Sym("set"), Sym("delete"), Sym("append")}
      modifies this
      ensures (content, r) == Accumulator.Perform(old(content), place, action, key, ck, value, force, res)
    {
      if action == Sym("key_delete") {
        assert Accumulator.Perform(content, place, action, key, ck, value, force, res) ==
          Accumulator.KeyDeleteAt(content, place, key, ck, res);
        r := KeyDeleteAction(place, key, ck, res);
      } else if action == Sym("key_delete_match_self") {
        r := MatchSelfAction(place, key, ck, value, force, res);
      } else if action == Sym("array_delete") {
        r := ArrayDeleteAction(place, key, ck, value, force, res);
      } else {
        assert !Accumulator.KnownAction(action);
        r := Err(ArgumentError);
      }
    }

    /** The object `accumulator_config` works on: the initialised path, or
        the contained parent for `:array_contained`. */
    method ConfigPlace(path: seq<Value>, pt: Options.PathType, listAction: bool, opts: seq<Entry>) returns (place: Result<Place>)
      modifies this
      ensures (content, place) == Accumulator.ConfigPlace(old(content), path, pt, listAction, opts)
    {
      if pt == Options.ArrayContained {
        place := ContainingPathInit(path, listAction, opts);
      } else {
        var h := PathInit(path, listAction);
        place := if h.Err? then Err(h.error) else Ok(InTree(h.value));
      }
    }

    /** `accumulator_config` once the path and its type are known. */
    method ConfigAt(path: seq<Value>, pt: Options.PathType, action: Value, key: Value, value: Value, force: bool, res: Accumulator.Resource)
      returns (r: Result<Value>)
      modifies this
      ensures (content, r) == Accumulator.ConfigAt(old(content), path, pt, action, key, value, force, res)
    {
      ghost var t0 := content;
      var place := ConfigPlace(path, pt, Paths.IsListAction(action), res.opts);
      if place.Err? {
        r := Err(place.error);
      } else {
        var ck := SectionRead.TranslatedKey(res.opts, key);
        if ck.Err? {
          r := Err(ck.error);
        } else {
          assert Accumulator.ConfigAt(t0, path, pt, action, key, value, force, res) ==
            Accumulator.Perform(content, place.value, action, key, ck.value, value, force, res);
          r := Perform(place.value, action, key, ck.value, value, force, res);
        }
      }
    }

    /** `accumulator_config(action:, key:, value:, force_replace:)`. */
    method AccumulatorConfig(action: Value, key: Value, value: Value, force: bool, res: Accumulator.Resource)
      returns (r: Result<Value>)
      modifies this
      ensures (content, r) == Accumulator.Config(old(content), action, key, value, force, res)
    {
      var path := ConfigPath.ResourcePath(res.typeName, res.opts);
      var pt := Options.PathTypeOf(res.opts);
      if path.Err? {
        r := Err(path.error);
      } else if pt.Err? {
        r := Err(pt.error);
      } else {
        assert Accumulator.Config(content, action, key, value, force, res) ==
          Accumulator.ConfigAt(content, path.value, pt.value, action, key, value, force, res);
        r := ConfigAt(path.value, pt.value, action, key, value, force, res);
      }
    }
  }
}
