/** The run-state cache: a Hash kept in the node's run state under one
    private key, in which a chain of keys is walked and every level that is
    missing, empty or not a Hash is replaced by a new Hash. */
module State {
  import opened Tree
  import opened Utils

  /** `STATE_CACHE_KEY`. */
  const CacheKey: Value := Sym("ChefAutoAccumulator")

  /** The keys as a reference into nested Hashes. */
  function Keys(keys: seq<Value>): (r: seq<Step>)
    ensures |r| == |keys| && forall i :: 0 <= i < |keys| ==> r[i] == Key(keys[i])
  {
    if keys == [] then [] else [Key(keys[0])] + Keys(keys[1..])
  }

  lemma KeysCons(h: seq<Step>, keys: seq<Value>)
    requires keys != []
    ensures h + Keys(keys) == (h + [Key(keys[0])]) + Keys(keys[1..])
  {
    assert Keys(keys) == [Key(keys[0])] + Keys(keys[1..]);
  }

  /** A Hash at the end of a reference. */
  predicate HashAt(t: Value, h: seq<Step>)
  {
    GetAt(t, h).Some? && GetAt(t, h).value.Map?
  }

  /** One key of the walk, with the current level at `h`.  The level is
      kept when the `probe` value is neither nil nor empty and the current
      level holds a Hash under `k`; otherwise `k` is set to a new Hash.
      The walk moves on to `k` either way. */
  function CacheStep(cache: Value, h: seq<Step>, k: Value, probe: Value): (r: (Value, seq<Step>))
    requires cache.Map? && HashAt(cache, h)
    ensures r.0.Map? && HashAt(r.0, r.1) && r.1 == h + [Key(k)]
    ensures var cur := GetAt(cache, h).value.entries;
      !NilOrEmpty([probe]) && Lookup(cur, k).Map? ==> r.0 == cache && GetAt(r.0, r.1) == Some(Lookup(cur, k))
    ensures var cur := GetAt(cache, h).value.entries;
      !(!NilOrEmpty([probe]) && Lookup(cur, k).Map?) ==>
        GetAt(r.0, r.1) == Some(Map([])) && r.0 == PutAt(cache, h, Map(Store(cur, k, Map([]))))
  {
    var cur := GetAt(cache, h).value.entries;
    GetAppend(cache, h, Key(k));
    if !NilOrEmpty([probe]) && Lookup(cur, k).Map? then
      assert HasKey(cur, k);
      (cache, h + [Key(k)])
    else
      var level := Map(Store(cur, k, Map([])));
      var c1 := PutAt(cache, h, level);
      GetPut(cache, h, level);
      GetAppend(c1, h, Key(k));
      assert c1.Map? by {
        if h != [] {
          assert h[0].Key?;
        }
      }
      (c1, h + [Key(k)])
  }

  /** The walk of `run_state_cache(*keys)` from the level at `h`.  With
      `asWritten` the emptiness probe reads the key in the top-level cache
      Hash, as the library does; otherwise it reads the current level. */
  function CacheWalk(cache: Value, h: seq<Step>, keys: seq<Value>, asWritten: bool): (r: (Value, seq<Step>))
    requires cache.Map? && HashAt(cache, h)
    ensures r.0.Map? && HashAt(r.0, r.1)
    ensures r.1 == h + Keys(keys)
    decreases |keys|
  {
    if keys == [] then (cache, h)
    else
      var s := CacheStep(cache, h, keys[0], Probe(cache, h, keys[0], asWritten));
      KeysCons(h, keys);
      CacheWalk(s.0, s.1, keys[1..], asWritten)
  }

  /** The value whose emptiness decides whether a level is kept: the key
      in the top-level cache Hash as written, or in the current level. */
  function Probe(cache: Value, h: seq<Step>, k: Value, asWritten: bool): Value
    requires cache.Map? && HashAt(cache, h)
  {
    if asWritten then Lookup(cache.entries, k) else Lookup(GetAt(cache, h).value.entries, k)
  }

  /** The cache Hash after `||= {}`. */
  function Start(entry: Value): Value
  {
    if Truthy(entry) then entry else Map([])
  }

  /** The cache and the reference `run_state_cache` returns, as written. */
  function CacheAsWritten(cache: Value, keys: seq<Value>): (r: (Value, seq<Step>))
    requires cache.Map?
    ensures HashAt(r.0, r.1) && r.1 == Keys(keys)
  {
    CacheWalk(cache, [], keys, true)
  }

  /** The cache and the reference `run_state_cache` returns, each level
      tested on itself. */
  function Cache(cache: Value, keys: seq<Value>): (r: (Value, seq<Step>))
    requires cache.Map?
    ensures HashAt(r.0, r.1) && r.1 == Keys(keys)
  {
    CacheWalk(cache, [], keys, false)
  }

  /** Every key leads to a non-empty Hash. */
  predicate Populated(v: Value, keys: seq<Value>)
    decreases |keys|
  {
    keys == [] ||
    (v.Map? && Lookup(v.entries, keys[0]).Map? && Lookup(v.entries, keys[0]).entries != [] &&
     Populated(Lookup(v.entries, keys[0]), keys[1..]))
  }

  /** A chain of non-empty Hashes is walked without change: the same
      objects are returned on every call. */
  lemma {:induction false} PopulatedUnchanged(cache: Value, h: seq<Step>, keys: seq<Value>)
    requires cache.Map? && HashAt(cache, h)
    requires Populated(GetAt(cache, h).value, keys)
    ensures CacheWalk(cache, h, keys, false).0 == cache
    decreases |keys|
  {
    if keys != [] {
      var cur := GetAt(cache, h).value;
      var next := Lookup(cur.entries, keys[0]);
      NilOrEmptySingle(next);
      var (c1, h1) := CacheStep(cache, h, keys[0], next);
      assert c1 == cache && GetAt(c1, h1) == Some(next);
      PopulatedUnchanged(c1, h1, keys[1..]);
    }
  }

  /** An absent, empty or non-Hash value under the first key is replaced
      by an empty Hash, which is what the reference then reaches. */
  lemma ResetToEmpty(cache: Value, k: Value)
    requires cache.Map?
    requires var v := Lookup(cache.entries, k); !(v.Map? && v.entries != [])
    ensures Cache(cache, [k]).0 == Map(Store(cache.entries, k, Map([])))
    ensures GetAt(Cache(cache, [k]).0, [Key(k)]) == Some(Map([]))
  {
    NilOrEmptySingle(Lookup(cache.entries, k));
    assert GetAt(cache, []) == Some(cache);
    var s := CacheStep(cache, [], k, Probe(cache, [], k, false));
    assert [k][1..] == [];
    assert CacheWalk(cache, [], [k], false) == CacheWalk(s.0, s.1, [], false);
  }

  /** On one key the top level is the current level, so the library's
      probe is right there. */
  lemma OneKeyAgrees(cache: Value, k: Value)
    requires cache.Map?
    ensures CacheAsWritten(cache, [k]) == Cache(cache, [k])
  {
    assert GetAt(cache, []) == Some(cache);
    assert Probe(cache, [], k, true) == Probe(cache, [], k, false);
    var s := CacheStep(cache, [], k, Probe(cache, [], k, true));
    assert [k][1..] == [];
    assert CacheWalk(cache, [], [k], true) == CacheWalk(s.0, s.1, [], true);
    assert CacheWalk(cache, [], [k], false) == CacheWalk(s.0, s.1, [], false);
  }

  /** The walk as written over `{a: {b: {x: 1}}}` with the keys `[:a, :b]`. */
  lemma AsWrittenResetsInner()
    ensures var cache := Map([Entry(Sym("a"), Map([Entry(Sym("b"), Map([Entry(Sym("x"), Int(1))]))]))]);
      CacheAsWritten(cache, [Sym("a"), Sym("b")]).0 == Map([Entry(Sym("a"), Map([Entry(Sym("b"), Map([]))]))])
  {
    var x := Map([Entry(Sym("x"), Int(1))]);
    var inner := Map([Entry(Sym("b"), x)]);
    var cache := Map([Entry(Sym("a"), inner)]);
    var keys := [Sym("a"), Sym("b")];
    assert Find(cache.entries, Sym("a")) == Some(0);
    assert Find(cache.entries, Sym("b")) == None;
    assert Find(inner.entries, Sym("b")) == Some(0);
    NilOrEmptySingle(inner);
    NilOrEmptySingle(x);
    NilOrEmptySingle(Nil);
    assert GetAt(cache, []) == Some(cache);
    var s1 := CacheStep(cache, [], Sym("a"), Probe(cache, [], Sym("a"), true));
    assert Probe(cache, [], Sym("a"), true) == inner;
    assert !NilOrEmpty([inner]) && Lookup(cache.entries, Sym("a")).Map?;
    assert [] + [Key(Sym("a"))] == [Key(Sym("a"))];
    assert s1 == (cache, [Key(Sym("a"))]);
    assert CacheWalk(cache, [], keys, true) == CacheWalk(s1.0, s1.1, [Sym("b")], true);
    assert GetAt(cache, s1.1) == Some(inner);
    var s2 := CacheStep(s1.0, s1.1, Sym("b"), Probe(s1.0, s1.1, Sym("b"), true));
    assert Probe(s1.0, s1.1, Sym("b"), true) == Nil;
    assert [Sym("b")][1..] == [];
    assert CacheWalk(s1.0, s1.1, [Sym("b")], true) == CacheWalk(s2.0, s2.1, [], true) == s2;
    assert s2.0 == PutAt(cache, [Key(Sym("a"))], Map(Store(inner.entries, Sym("b"), Map([]))));
    assert Store(inner.entries, Sym("b"), Map([])) == [Entry(Sym("b"), Map([]))];
    assert Store(cache.entries, Sym("a"), Map([Entry(Sym("b"), Map([]))])) == [Entry(Sym("a"), Map([Entry(Sym("b"), Map([]))]))];
  }

  /** The keys `[:a, :b]` over the cache `{a: {b: {x: 1}}}`: the library
      probes `cache[:b]`, finds nil and resets the populated inner Hash. */
  lemma InnerHashReset()
    ensures var cache := Map([Entry(Sym("a"), Map([Entry(Sym("b"), Map([Entry(Sym("x"), Int(1))]))]))]);
      CacheAsWritten(cache, [Sym("a"), Sym("b")]).0 == Map([Entry(Sym("a"), Map([Entry(Sym("b"), Map([]))]))]) &&
      Cache(cache, [Sym("a"), Sym("b")]).0 == cache
  {
    var x := Map([Entry(Sym("x"), Int(1))]);
    var inner := Map([Entry(Sym("b"), x)]);
    var cache := Map([Entry(Sym("a"), inner)]);
    var keys := [Sym("a"), Sym("b")];
    AsWrittenResetsInner();
    assert Populated(cache, keys) by {
      assert Find(cache.entries, Sym("a")) == Some(0);
      assert Find(inner.entries, Sym("b")) == Some(0);
      assert keys[1..] == [Sym("b")];
      assert Find(x.entries, Sym("x")) == Some(0);
    }
    assert GetAt(cache, []) == Some(cache);
    PopulatedUnchanged(cache, [], keys);
  }

  /** The node whose run state holds the cache. */
  class Node {
    /** `node.run_state`. */
    var runState: seq<Entry>

    /** The cache entry is unset, falsy or a Hash: only this module writes it. */
    predicate Valid()
      reads this
    {
      var c := Lookup(runState, CacheKey);
      !Truthy(c) || c.Map?
    }

    constructor(runState: seq<Entry>)
      ensures this.runState == runState
    {
      this.runState := runState;
    }

    /** `run_state_cache(*keys)`: initialises the cache, walks the keys
        creating levels, and returns a reference (from the run state) to
        the Hash reached. */
    method RunStateCache(keys: seq<Value>) returns (h: seq<Step>)
      requires Valid()
      modifies this
      ensures Valid()
      ensures var r := Cache(Start(old(Lookup(runState, CacheKey))), keys);
        HasKey(runState, CacheKey) && Lookup(runState, CacheKey) == r.0 && h == [Key(CacheKey)] + r.1
      ensures forall k :: k != CacheKey ==> HasKey(runState, k) == HasKey(old(runState), k) && Lookup(runState, k) == Lookup(old(runState), k)
      ensures HashAt(Map(runState), h)
    {
      var entry := Lookup(runState, CacheKey);
      if !Truthy(entry) {
        runState := Store(runState, CacheKey, Map([]));
      }
      var cache := Start(entry);
      ghost var start := cache;
      var at: seq<Step> := [];
      var i := 0;
      while i < |keys|
        invariant 0 <= i <= |keys|
        invariant cache.Map? && HashAt(cache, at)
        invariant CacheWalk(cache, at, keys[i..], false) == Cache(start, keys)
        invariant HasKey(runState, CacheKey) && Lookup(runState, CacheKey) == cache
        invariant forall k :: k != CacheKey ==> HasKey(runState, k) == HasKey(old(runState), k) && Lookup(runState, k) == Lookup(old(runState), k)
      {
        var k := keys[i];
        var cur := GetAt(cache, at).value.entries;
        var next := Lookup(cur, k);
        ghost var step := CacheStep(cache, at, k, next);
        assert keys[i..][0] == k && keys[i..][1..] == keys[i + 1..];
        assert CacheWalk(step.0, step.1, keys[i + 1..], false) == Cache(start, keys);
        if !NilOrEmpty([next]) && next.Map? {
          at := at + [Key(k)];
        } else {
          cache := PutAt(cache, at, Map(Store(cur, k, Map([]))));
          at := at + [Key(k)];
          runState := Store(runState, CacheKey, cache);
        }
        i := i + 1;
      }
      assert keys[i..] == [];
      h := [Key(CacheKey)] + at;
      assert GetAt(Map(runState), [Key(CacheKey)]) == Some(cache);
      GetAt2(Map(runState), Key(CacheKey), at);
    }
  }

  /** A reference that starts with a key reaches what the rest reaches
      from that key's value. */
  lemma GetAt2(t: Value, s: Step, h: seq<Step>)
    requires s.Key? && t.Map? && HasKey(t.entries, s.key)
    ensures GetAt(t, [s] + h) == GetAt(Lookup(t.entries, s.key), h)
  {
    assert ([s] + h)[0] == s && ([s] + h)[1..] == h;
  }
}
