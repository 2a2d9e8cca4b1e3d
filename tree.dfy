/** The configuration tree: the nested Hash/Array/scalar values Ruby keeps in
    the template's `content` variable, with the handful of core-library
    operations the accumulator performs on them (`[]`, `fetch`, `dig`, `[]=`,
    `delete`, `merge!`, `delete_at`, `to_s`). */
module Tree {
  import opened Text

  /** A Ruby value.  Hashes keep their insertion order as a sequence of
      entries; `eql?` is structural equality on this datatype. */
  datatype Value =
    | Nil
    | Bool(b: bool)
    | Int(i: int)
    | Str(s: string)
    | Sym(name: string)
    | Map(entries: seq<Entry>)
    | List(items: seq<Value>)

  datatype Entry = Entry(key: Value, val: Value)

  /** The exceptions the core raises, by Ruby class.  `NoMethodError` is
      folded into its superclass `NameError`. */
  datatype Error =
    | ArgumentError
    | TypeError
    | NameError
    | KeyError
    | IndexError
    | RuntimeError
    | NotDefined(option: string)
    | Malformed(option: string)
    | FilterError
    | NoParentPath
    | CurrentValueDoesNotExist

  datatype Result<T> = Ok(value: T) | Err(error: Error)
  {
    predicate IsFailure() { Err? }

    function PropagateFailure<U>(): Result<U>
      requires Err?
    {
      Err(error)
    }

    function Extract(): T
      requires Ok?
    {
      value
    }
  }

  datatype Option<T> = None | Some(value: T)

  /** One step of a reference into the tree: a Hash key or an Array position. */
  datatype Step = Key(key: Value) | At(index: nat)

  /** Ruby truthiness: everything except `nil` and `false`. */
  predicate Truthy(v: Value)
  {
    !v.Nil? && v != Bool(false)
  }

  /** The value responds to `empty?` and is empty. */
  predicate IsEmpty(v: Value)
  {
    match v
    case Str(s) => s == []
    case Sym(n) => n == []
    case Map(es) => es == []
    case List(xs) => xs == []
    case _ => false
  }

  predicate IsContainer(v: Value)
  {
    v.Map? || v.List?
  }

  /** A list of `n` nils, the padding Ruby inserts when assigning past the end of an Array. */
  function Nils(n: nat): (r: seq<Value>)
    ensures |r| == n && forall i :: 0 <= i < n ==> r[i] == Nil
  {
    if n == 0 then [] else Nils(n - 1) + [Nil]
  }

  /** A Ruby Array index counted from the end when negative. */
  function Norm(i: int, n: nat): int
  {
    if i < 0 then i + n else i
  }

  // ---------------------------------------------------------------------
  // Hash operations over an ordered entry sequence
  // ---------------------------------------------------------------------

  /** The position of the first entry with key `k`. */
  function Find(es: seq<Entry>, k: Value): (r: Option<nat>)
    ensures r.Some? ==> r.value < |es| && es[r.value].key == k
    ensures r.Some? ==> forall j :: 0 <= j < r.value ==> es[j].key != k
    ensures r.None? ==> forall j :: 0 <= j < |es| ==> es[j].key != k
  {
    if es == [] then None
    else if es[0].key == k then Some(0)
    else match Find(es[1..], k)
      case None => None
      case Some(j) => Some(j + 1)
  }

  /** Ruby's `Hash#key?`. */
  predicate HasKey(es: seq<Entry>, k: Value)
  {
    Find(es, k).Some?
  }

  lemma HasKeyIff(es: seq<Entry>, k: Value)
    ensures HasKey(es, k) <==> exists j :: 0 <= j < |es| && es[j].key == k
  {
  }

  /** Ruby's `Hash#[]`: the value stored under `k`, or `nil`. */
  function Lookup(es: seq<Entry>, k: Value): Value
  {
    match Find(es, k)
    case None => Nil
    case Some(j) => es[j].val
  }

  /** Ruby's `Hash#[]=`: overwrite in place if the key exists, else append. */
  function Store(es: seq<Entry>, k: Value, v: Value): (r: seq<Entry>)
    ensures HasKey(r, k) && Lookup(r, k) == v
    ensures forall k' :: k' != k ==> HasKey(r, k') == HasKey(es, k') && Lookup(r, k') == Lookup(es, k')
    ensures |r| == if HasKey(es, k) then |es| else |es| + 1
  {
    match Find(es, k)
    case Some(j) =>
      var r := es[j := Entry(k, v)];
      assert Find(r, k) == Some(j) by { FindPrefix(es, r, k, j); }
      forall k' | k' != k
        ensures HasKey(r, k') == HasKey(es, k') && Lookup(r, k') == Lookup(es, k')
      {
        FindOther(es, j, Entry(k, v), k');
      }
      r
    case None =>
      var r := es + [Entry(k, v)];
      assert r[|es|].key == k;
      forall k' | k' != k
        ensures HasKey(r, k') == HasKey(es, k') && Lookup(r, k') == Lookup(es, k')
      {
        FindAppend(es, Entry(k, v), k');
      }
      r
  }

  lemma {:induction false} FindPrefix(es: seq<Entry>, r: seq<Entry>, k: Value, j: nat)
    requires |r| == |es| && j < |es| && r[j].key == k
    requires forall i :: 0 <= i < j ==> r[i] == es[i] && es[i].key != k
    ensures Find(r, k) == Some(j)
  {
    if j > 0 {
      FindPrefix(es[1..], r[1..], k, j - 1);
    }
  }

  lemma {:induction false} FindOther(es: seq<Entry>, j: nat, e: Entry, k': Value)
    requires j < |es| && e.key == es[j].key && k' != e.key
    ensures Find(es[j := e], k') == Find(es, k')
    ensures HasKey(es[j := e], k') == HasKey(es, k') && Lookup(es[j := e], k') == Lookup(es, k')
  {
    if j > 0 && es[0].key != k' {
      assert es[j := e][1..] == es[1..][j - 1 := e];
      FindOther(es[1..], j - 1, e, k');
    } else if j == 0 {
      assert es[j := e][1..] == es[1..];
    }
    if Find(es, k').Some? {
      assert Find(es, k').value != j;
    }
  }

  lemma {:induction false} FindAppend(es: seq<Entry>, e: Entry, k': Value)
    requires k' != e.key
    ensures Find(es + [e], k') == Find(es, k')
    ensures HasKey(es + [e], k') == HasKey(es, k') && Lookup(es + [e], k') == Lookup(es, k')
  {
    if es != [] {
      assert (es + [e])[1..] == es[1..] + [e];
      FindAppend(es[1..], e, k');
    }
  }

  /** Ruby's `Hash#delete`: no entry with key `k` remains. */
  function Remove(es: seq<Entry>, k: Value): (r: seq<Entry>)
    ensures !HasKey(r, k)
    ensures forall k' :: k' != k ==> HasKey(r, k') == HasKey(es, k') && Lookup(r, k') == Lookup(es, k')
    ensures |r| <= |es|
  {
    if es == [] then []
    else
      var rest := Remove(es[1..], k);
      if es[0].key == k then rest
      else
        var r := [es[0]] + rest;
        assert r[0] == es[0] && r[1..] == rest;
        forall k' | k' != k
          ensures HasKey(r, k') == HasKey(es, k') && Lookup(r, k') == Lookup(es, k')
        {
          if es[0].key != k' {
            assert Find(r, k') == match Find(rest, k') case None => None case Some(j) => Some(j + 1);
            assert Find(es, k') == match Find(es[1..], k') case None => None case Some(j) => Some(j + 1);
            assert HasKey(r, k') == HasKey(rest, k') && Lookup(r, k') == Lookup(rest, k');
            assert HasKey(es, k') == HasKey(es[1..], k') && Lookup(es, k') == Lookup(es[1..], k');
          }
        }
        r
  }

  /** Every key occurs once, as in any Ruby Hash. */
  predicate UniqueKeys(es: seq<Entry>)
  {
    forall i, j :: 0 <= i < j < |es| ==> es[i].key != es[j].key
  }

  lemma StoreUnique(es: seq<Entry>, k: Value, v: Value)
    requires UniqueKeys(es)
    ensures UniqueKeys(Store(es, k, v))
  {
    var r := Store(es, k, v);
    if !HasKey(es, k) {
      assert r == es + [Entry(k, v)];
    }
  }

  /** Ruby's `Hash#merge!`: a shallow overwrite, key by key, of `a` by `b`. */
  function Merge(a: seq<Entry>, b: seq<Entry>): seq<Entry>
    decreases |b|
  {
    if b == [] then a else Merge(Store(a, b[0].key, b[0].val), b[1..])
  }

  /** After a merge, a key is present iff it was in either Hash; its value
      is `b`'s when `b` has it and `a`'s otherwise. */
  lemma {:induction false} MergeLookup(a: seq<Entry>, b: seq<Entry>, k: Value)
    requires UniqueKeys(b)
    ensures HasKey(Merge(a, b), k) <==> HasKey(a, k) || HasKey(b, k)
    ensures Lookup(Merge(a, b), k) == if HasKey(b, k) then Lookup(b, k) else Lookup(a, k)
    decreases |b|
  {
    if b != [] {
      var a' := Store(a, b[0].key, b[0].val);
      MergeLookup(a', b[1..], k);
      if b[0].key == k {
        assert Find(b, k) == Some(0);
        assert !HasKey(b[1..], k);
      } else {
        assert HasKey(b, k) == HasKey(b[1..], k);
        assert Lookup(b, k) == Lookup(b[1..], k);
      }
    }
  }

  /** Keys `a` already had keep their position: a merge only ever appends new keys. */
  lemma {:induction false} MergeKeepsPrefix(a: seq<Entry>, b: seq<Entry>)
    ensures |Merge(a, b)| >= |a|
    ensures forall i :: 0 <= i < |a| ==> Merge(a, b)[i].key == a[i].key
    decreases |b|
  {
    if b != [] {
      var a' := Store(a, b[0].key, b[0].val);
      assert forall i :: 0 <= i < |a| ==> a'[i].key == a[i].key;
      MergeKeepsPrefix(a', b[1..]);
    }
  }

  // ---------------------------------------------------------------------
  // Element access
  // ---------------------------------------------------------------------

  /** Ruby's `c[k]` on any value. */
  function Index(c: Value, k: Value): (r: Result<Value>)
    ensures c.Map? ==> r == Ok(Lookup(c.entries, k))
    ensures (c.Nil? || c.Bool?) ==> r == Err(NameError)
    ensures c.List? && !k.Int? ==> r == Err(TypeError)
  {
    match c
    case Nil => Err(NameError)
    case Bool(_) => Err(NameError)
    case Map(es) => Ok(Lookup(es, k))
    case List(xs) =>
      if k.Int? then
        var j := Norm(k.i, |xs|);
        Ok(if 0 <= j < |xs| then xs[j] else Nil)
      else Err(TypeError)
    case Int(n) =>
      if k.Int? then Ok(Int(if k.i < 0 then 0 else (n / Pow2(k.i)) % 2))
      else Err(TypeError)
    case Str(s) => IndexString(s, k)
    case Sym(s) => IndexString(s, k)
  }

  /** `String#[]`: a one-character string at an index, or the argument itself
      when it occurs as a substring. */
  function IndexString(s: string, k: Value): Result<Value>
  {
    match k
    case Int(i) =>
      var j := Norm(i, |s|);
      Ok(if 0 <= j < |s| then Str([s[j]]) else Nil)
    case Str(sub) => Ok(if Contains(s, sub) then Str(sub) else Nil)
    case _ => Err(TypeError)
  }

  function Pow2(n: nat): (r: nat)
    ensures r >= 1
  {
    if n == 0 then 1 else 2 * Pow2(n - 1)
  }

  /** The value responds to `fetch` (a Hash or an Array). */
  predicate RespondsToFetch(v: Value)
  {
    v.Map? || v.List?
  }

  /** Ruby's `c.fetch(k, d)`. */
  function Fetch(c: Value, k: Value, d: Value): (r: Result<Value>)
    ensures !RespondsToFetch(c) ==> r == Err(NameError)
    ensures c.Map? ==> r == Ok(if HasKey(c.entries, k) then Lookup(c.entries, k) else d)
  {
    match c
    case Map(es) => Ok(if HasKey(es, k) then Lookup(es, k) else d)
    case List(xs) =>
      if k.Int? then
        var j := Norm(k.i, |xs|);
        Ok(if 0 <= j < |xs| then xs[j] else d)
      else Err(TypeError)
    case _ => Err(NameError)
  }

  /** Ruby's `c.fetch(k)` without a default: a missing key is an error. */
  function FetchStrict(c: Value, k: Value): (r: Result<Value>)
    ensures c.Map? ==> r == if HasKey(c.entries, k) then Ok(Lookup(c.entries, k)) else Err(KeyError)
    ensures !RespondsToFetch(c) ==> r == Err(NameError)
  {
    match c
    case Map(es) => if HasKey(es, k) then Ok(Lookup(es, k)) else Err(KeyError)
    case List(xs) =>
      if k.Int? then
        var j := Norm(k.i, |xs|);
        if 0 <= j < |xs| then Ok(xs[j]) else Err(IndexError)
      else Err(TypeError)
    case _ => Err(NameError)
  }

  /** Ruby's `c.dig(*path)`.  The receiver must be a Hash or an Array; a nil
      on the way ends the walk with nil; any other intermediate value
      cannot be dug into. */
  function Dig(c: Value, path: seq<Value>): (r: Result<Value>)
    ensures IsContainer(c) && path == [] ==> r == Err(ArgumentError)
    ensures !IsContainer(c) ==> r == Err(NameError)
  {
    if !IsContainer(c) then Err(NameError)
    else if path == [] then Err(ArgumentError)
    else DigFrom(c, path)
  }

  function DigFrom(c: Value, path: seq<Value>): Result<Value>
    requires IsContainer(c) && path != []
    decreases |path|
  {
    var first :- DigStep(c, path[0]);
    if |path| == 1 || first.Nil? then Ok(first)
    else if IsContainer(first) then DigFrom(first, path[1..])
    else Err(TypeError)
  }

  /** One step of `dig`: Hash lookup, or Array indexing by an Integer. */
  function DigStep(c: Value, k: Value): Result<Value>
    requires IsContainer(c)
  {
    if c.Map? then Ok(Lookup(c.entries, k))
    else if k.Int? then
      var j := Norm(k.i, |c.items|);
      Ok(if 0 <= j < |c.items| then c.items[j] else Nil)
    else Err(TypeError)
  }

  /** Ruby's `c[k] = v`.  A String container is not modelled and reports `TypeError`. */
  function AssignIndex(c: Value, k: Value, v: Value): (r: Result<Value>)
    ensures c.Map? ==> r == Ok(Map(Store(c.entries, k, v)))
    ensures r.Ok? ==> IsContainer(c) && IsContainer(r.value) && r.value.Map? == c.Map?
    ensures r.Ok? ==> Index(r.value, k) == Ok(v)
  {
    match c
    case Map(es) => Ok(Map(Store(es, k, v)))
    case List(xs) =>
      if k.Int? then
        match ListAssign(xs, k.i, v)
        case Ok(ys) => Ok(List(ys))
        case Err(e) => Err(e)
      else Err(TypeError)
    case Str(_) => Err(TypeError)
    case _ => Err(NameError)
  }

  /** `Array#[]=` with an Integer index: overwrite, or pad with nils past the
      end; a negative index before the start is an `IndexError`. */
  function ListAssign(xs: seq<Value>, i: int, v: Value): (r: Result<seq<Value>>)
    ensures r.Err? <==> Norm(i, |xs|) < 0
    ensures r.Ok? ==> var j := Norm(i, |xs|);
      |r.value| == (if j < |xs| then |xs| else j + 1) && r.value[j] == v &&
      (forall m :: 0 <= m < |r.value| && m != j ==> r.value[m] == if m < |xs| then xs[m] else Nil) &&
      Norm(i, |r.value|) == j
  {
    var j := Norm(i, |xs|);
    if j < 0 then Err(IndexError)
    else if j < |xs| then Ok(xs[j := v])
    else Ok(xs + Nils(j - |xs|) + [v])
  }

  /** `Array#delete_at`: removes the element at a position, or nothing when
      the position is out of range. */
  function DeleteAt(xs: seq<Value>, i: int): (r: seq<Value>)
    ensures var j := Norm(i, |xs|);
      if 0 <= j < |xs| then |r| == |xs| - 1 && r == xs[..j] + xs[j + 1..] else r == xs
  {
    var j := Norm(i, |xs|);
    if 0 <= j < |xs| then xs[..j] + xs[j + 1..] else xs
  }

  // ---------------------------------------------------------------------
  // References into the tree
  // ---------------------------------------------------------------------

  /** The value reached from `t` along `h`, if every step exists. */
  function GetAt(t: Value, h: seq<Step>): Option<Value>
    decreases |h|
  {
    if h == [] then Some(t)
    else match h[0]
      case Key(k) =>
        if t.Map? && HasKey(t.entries, k) then GetAt(Lookup(t.entries, k), h[1..]) else None
      case At(i) =>
        if t.List? && i < |t.items| then GetAt(t.items[i], h[1..]) else None
  }

  /** `t` with the value at `h` replaced by `v`; unchanged if `h` does not exist. */
  function PutAt(t: Value, h: seq<Step>, v: Value): Value
    decreases |h|
  {
    if h == [] then v
    else match h[0]
      case Key(k) =>
        if t.Map? && HasKey(t.entries, k)
        then Map(Store(t.entries, k, PutAt(Lookup(t.entries, k), h[1..], v)))
        else t
      case At(i) =>
        if t.List? && i < |t.items|
        then List(t.items[i := PutAt(t.items[i], h[1..], v)])
        else t
  }

  /** Writing at an existing reference and reading it back gives the written value. */
  lemma {:induction false} GetPut(t: Value, h: seq<Step>, v: Value)
    requires GetAt(t, h).Some?
    ensures GetAt(PutAt(t, h, v), h) == Some(v)
    decreases |h|
  {
    if h != [] {
      match h[0]
      case Key(k) => GetPut(Lookup(t.entries, k), h[1..], v);
      case At(i) => GetPut(t.items[i], h[1..], v);
    }
  }

  /** Writing back what is already there changes nothing. */
  lemma {:induction false} PutGet(t: Value, h: seq<Step>)
    requires GetAt(t, h).Some?
    ensures PutAt(t, h, GetAt(t, h).value) == t
    decreases |h|
  {
    if h != [] {
      match h[0]
      case Key(k) =>
        var es := t.entries;
        PutGet(Lookup(es, k), h[1..]);
        var j := Find(es, k).value;
        assert es[j := Entry(k, es[j].val)] == es;
      case At(i) =>
        PutGet(t.items[i], h[1..]);
        assert t.items[i := t.items[i]] == t.items;
    }
  }

  /** A reference extended by one step reaches the child of what the reference reaches. */
  lemma {:induction false} GetAppend(t: Value, h: seq<Step>, s: Step)
    requires GetAt(t, h).Some?
    ensures GetAt(t, h + [s]) == GetAt(GetAt(t, h).value, [s])
    decreases |h|
  {
    if h != [] {
      assert (h + [s])[0] == h[0] && (h + [s])[1..] == h[1..] + [s];
      match h[0]
      case Key(k) => GetAppend(Lookup(t.entries, k), h[1..], s);
      case At(i) => GetAppend(t.items[i], h[1..], s);
    }
  }

  /** Writing below a reference is writing a changed child at the reference. */
  lemma {:induction false} PutAppend(t: Value, h: seq<Step>, s: Step, v: Value)
    requires GetAt(t, h).Some?
    ensures PutAt(t, h + [s], v) == PutAt(t, h, PutAt(GetAt(t, h).value, [s], v))
    decreases |h|
  {
    if h != [] {
      assert (h + [s])[0] == h[0] && (h + [s])[1..] == h[1..] + [s];
      match h[0]
      case Key(k) => PutAppend(Lookup(t.entries, k), h[1..], s, v);
      case At(i) => PutAppend(t.items[i], h[1..], s, v);
    }
  }

  /** Overwriting an existing reference twice keeps only the second write. */
  lemma {:induction false} PutPut(t: Value, h: seq<Step>, x: Value, y: Value)
    requires GetAt(t, h).Some?
    ensures PutAt(PutAt(t, h, x), h, y) == PutAt(t, h, y)
    decreases |h|
  {
    if h != [] {
      match h[0]
      case Key(k) =>
        var es := t.entries;
        var child := Lookup(es, k);
        PutPut(child, h[1..], x, y);
        StoreStore(es, k, PutAt(child, h[1..], x), PutAt(child, h[1..], y));
      case At(i) =>
        PutPut(t.items[i], h[1..], x, y);
    }
  }

  /** Storing twice under a key keeps the second value, where the first one went. */
  lemma StoreStore(es: seq<Entry>, k: Value, a: Value, b: Value)
    ensures Store(Store(es, k, a), k, b) == Store(es, k, b)
  {
    if HasKey(es, k) {
      var j := Find(es, k).value;
      var r := es[j := Entry(k, a)];
      FindPrefix(es, r, k, j);
      assert r[j := Entry(k, b)] == es[j := Entry(k, b)];
    } else {
      var r := es + [Entry(k, a)];
      FindPrefix(r, r, k, |es|);
      assert r[|es| := Entry(k, b)] == es + [Entry(k, b)];
    }
  }

  /** A reference that starts with one step reaches, below that step's child, what the rest reaches. */
  lemma GetCons(t: Value, s: Step, h: seq<Step>)
    ensures GetAt(t, [s] + h) == if GetAt(t, [s]).Some? then GetAt(GetAt(t, [s]).value, h) else None
  {
    assert ([s] + h)[0] == s && ([s] + h)[1..] == h;
  }

  /** Writing a new child at `h` and then below it by one step is one write at `h`. */
  lemma PutThrough(t: Value, h: seq<Step>, c: Value, s: Step, x: Value)
    requires GetAt(t, h).Some?
    ensures GetAt(PutAt(t, h, c), h) == Some(c)
    ensures PutAt(PutAt(t, h, c), h + [s], x) == PutAt(t, h, PutAt(c, [s], x))
    ensures GetAt(PutAt(t, h, c), h + [s]) == GetAt(c, [s])
  {
    GetPut(t, h, c);
    PutAppend(PutAt(t, h, c), h, s, x);
    PutPut(t, h, c, PutAt(c, [s], x));
    GetAppend(PutAt(t, h, c), h, s);
  }

  /** The step a successful `c[k]` or `c.fetch(k)` takes: the key of a Hash,
      or the normalised position in an Array. */
  function StepFor(c: Value, k: Value): Step
  {
    if c.List? && k.Int? && Norm(k.i, |c.items|) >= 0 then At(Norm(k.i, |c.items|)) else Key(k)
  }

  /** A non-nil element read by `c[k]` is reached by `StepFor(c, k)`. */
  lemma IndexStep(c: Value, k: Value, x: Value)
    requires IsContainer(c) && Index(c, k) == Ok(x) && x != Nil
    ensures GetAt(c, [StepFor(c, k)]) == Some(x)
  {
    if c.Map? {
      assert HasKey(c.entries, k);
    }
  }

  /** An element found by `c.fetch(k)` is reached by `StepFor(c, k)`. */
  lemma FetchStep(c: Value, k: Value, x: Value)
    requires FetchStrict(c, k) == Ok(x)
    ensures GetAt(c, [StepFor(c, k)]) == Some(x)
  {
  }

  /** Rewriting the child at `StepFor(c, k)` keeps the container's kind and
      size, keeps the step, and makes `c[k]` read the new child. */
  lemma PutStep(c: Value, k: Value, y: Value)
    requires IsContainer(c) && GetAt(c, [StepFor(c, k)]).Some?
    ensures var c2 := PutAt(c, [StepFor(c, k)], y);
      IsContainer(c2) && c2.Map? == c.Map? && StepFor(c2, k) == StepFor(c, k) &&
      Index(c2, k) == Ok(y) && DigStep(c2, k) == Ok(y) && GetAt(c2, [StepFor(c, k)]) == Some(y)
  {
    GetPut(c, [StepFor(c, k)], y);
  }

  /** The container a configuration action works on: a value inside the
      tree, reached by a reference, or a value Ruby built on the side (a
      `[key, value]` pair, or `nil`) whose changes never reach the tree. */
  datatype Place = InTree(path: seq<Step>) | Detached(v: Value)

  /** The object at a place (`nil` for a reference that does not exist). */
  function Deref(t: Value, p: Place): Value
  {
    match p
    case InTree(h) => if GetAt(t, h).Some? then GetAt(t, h).value else Nil
    case Detached(v) => v
  }

  /** Replaces the object at a place, returning the new tree and place. */
  function Write(t: Value, p: Place, v: Value): (r: (Value, Place))
    ensures p.InTree? && GetAt(t, p.path).Some? ==> Deref(r.0, r.1) == v
    ensures p.Detached? ==> r == (t, Detached(v))
  {
    match p
    case InTree(h) =>
      if GetAt(t, h).Some? then
        GetPut(t, h, v);
        (PutAt(t, h, v), p)
      else (t, p)
    case Detached(_) => (t, Detached(v))
  }

  // ---------------------------------------------------------------------
  // Conversion to String
  // ---------------------------------------------------------------------

  /** Ruby's `to_s`. */
  function ToS(v: Value): (r: string)
    ensures v.Str? ==> r == v.s
    ensures v.Sym? ==> r == v.name
    ensures v.Nil? ==> r == ""
  {
    match v
    case Nil => ""
    case Bool(b) => if b then "true" else "false"
    case Int(n) => DecimalString(n)
    case Str(s) => s
    case Sym(n) => n
    case _ => Inspect(v)
  }

  /** Ruby's `inspect`, without escaping inside strings. */
  function Inspect(v: Value): string
    decreases v
  {
    match v
    case Nil => "nil"
    case Bool(b) => if b then "true" else "false"
    case Int(n) => DecimalString(n)
    case Str(s) => "\"" + s + "\""
    case Sym(n) => ":" + n
    case List(xs) => "[" + InspectItems(xs) + "]"
    case Map(es) => "{" + InspectEntries(es) + "}"
  }

  function InspectItems(xs: seq<Value>): string
    decreases xs
  {
    if xs == [] then ""
    else if |xs| == 1 then Inspect(xs[0])
    else Inspect(xs[0]) + ", " + InspectItems(xs[1..])
  }

  function InspectEntries(es: seq<Entry>): string
    decreases es
  {
    if es == [] then ""
    else if |es| == 1 then InspectEntry(es[0])
    else InspectEntry(es[0]) + ", " + InspectEntries(es[1..])
  }

  function InspectEntry(e: Entry): string
    decreases e
  {
    Inspect(e.key) + "=>" + Inspect(e.val)
  }
}
