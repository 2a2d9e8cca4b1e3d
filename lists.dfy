/** The Enumerable operations the accumulator applies to configuration
    containers: `select`/`filter` by an `eql?` test on one key of each
    element, `uniq`, `one?`, `first`, the match-index scan, positional
    deletes and `delete_if`.  A Hash enumerates as `[key, value]` pairs, and
    a one-parameter block given to `Hash#select` receives the key. */
module Lists {
  import opened Tree
  import opened Utils

  // ---------------------------------------------------------------------
  // select { |e| e[key].eql?(value) }
  // ---------------------------------------------------------------------

  /** The element test `e[key].eql?(value)`. */
  function Test(e: Value, key: Value, value: Value): Result<bool>
  {
    var got :- Index(e, key);
    Ok(got == value)
  }

  /** `Array#select`: the elements passing the test, in order; the first
      element whose test raises ends the scan with that error. */
  function SelectItems(xs: seq<Value>, key: Value, value: Value): (r: Result<seq<Value>>)
    ensures r.Ok? <==> forall i :: 0 <= i < |xs| ==> Test(xs[i], key, value).Ok?
    ensures r.Ok? ==> |r.value| <= |xs|
    ensures r.Ok? ==> forall y :: y in r.value <==> y in xs && Test(y, key, value) == Ok(true)
    ensures r.Ok? ==> forall y :: y in r.value ==> Truthy(y)
  {
    if xs == [] then Ok([])
    else
      var keep :- Test(xs[0], key, value);
      var rest :- SelectItems(xs[1..], key, value);
      assert forall i :: 1 <= i < |xs| ==> xs[i] == xs[1..][i - 1];
      assert forall y :: y in xs <==> y == xs[0] || y in xs[1..];
      Ok(if keep then [xs[0]] + rest else rest)
  }

  /** `Hash#select` with a one-parameter block, then enumerated: the
      `[key, value]` pairs whose key passes the test. */
  function SelectEntries(es: seq<Entry>, key: Value, value: Value): (r: Result<seq<Value>>)
    ensures r.Ok? <==> forall i :: 0 <= i < |es| ==> Test(es[i].key, key, value).Ok?
    ensures r.Ok? ==> |r.value| <= |es|
    ensures r.Ok? ==> forall y :: y in r.value <==>
      exists i :: 0 <= i < |es| && y == List([es[i].key, es[i].val]) && Test(es[i].key, key, value) == Ok(true)
  {
    if es == [] then Ok([])
    else
      var keep :- Test(es[0].key, key, value);
      var rest :- SelectEntries(es[1..], key, value);
      assert forall i :: 1 <= i < |es| ==> es[i] == es[1..][i - 1];
      Ok(if keep then [List([es[0].key, es[0].val])] + rest else rest)
  }

  /** `c.select { |e| e[key].eql?(value) }`, as the sequence `uniq` and
      `first` then see; a value that is neither a Hash nor an Array has no
      `select`. */
  function Select(c: Value, key: Value, value: Value): (r: Result<seq<Value>>)
    ensures !IsContainer(c) ==> r == Err(NameError)
    ensures c.List? ==> r == SelectItems(c.items, key, value)
    ensures c.Map? ==> r == SelectEntries(c.entries, key, value)
  {
    match c
    case List(xs) => SelectItems(xs, key, value)
    case Map(es) => SelectEntries(es, key, value)
    case _ => Err(NameError)
  }

  // ---------------------------------------------------------------------
  // uniq, one?, empty?, first
  // ---------------------------------------------------------------------

  /** `Array#uniq`: the first occurrence of each element, in order. */
  function Uniq(xs: seq<Value>): (r: seq<Value>)
    ensures forall y :: y in r <==> y in xs
    ensures forall i, j :: 0 <= i < j < |r| ==> r[i] != r[j]
    ensures |r| <= |xs|
    ensures xs != [] ==> r != [] && r[0] == xs[0]
  {
    if xs == [] then []
    else
      var u := Uniq(xs[..|xs| - 1]);
      assert forall y :: y in xs <==> y in xs[..|xs| - 1] || y == xs[|xs| - 1];
      if xs[|xs| - 1] in u then u else u + [xs[|xs| - 1]]
  }

  /** `uniq` leaves at most one element exactly when every element is the
      same: identical duplicates are not ambiguous, distinct ones are. */
  lemma {:induction false} UniqAtMostOne(xs: seq<Value>)
    ensures |Uniq(xs)| <= 1 <==> forall i, j :: 0 <= i < |xs| && 0 <= j < |xs| ==> xs[i] == xs[j]
  {
    var u := Uniq(xs);
    if |u| <= 1 {
      forall i, j | 0 <= i < |xs| && 0 <= j < |xs| ensures xs[i] == xs[j] {
        assert xs[i] in u && xs[j] in u;
      }
    } else {
      assert u[0] in xs && u[1] in xs && u[0] != u[1];
    }
  }

  /** The number of truthy elements, which `one?` compares with one. */
  function CountTruthy(xs: seq<Value>): (r: nat)
    ensures r <= |xs|
    ensures (forall y :: y in xs ==> Truthy(y)) ==> r == |xs|
  {
    if xs == [] then 0 else (if Truthy(xs[0]) then 1 else 0) + CountTruthy(xs[1..])
  }

  /** `item.one? || item.empty?`: an Array counts its truthy elements, a
      Hash its pairs (never falsy); other values have no `one?`. */
  function OneOrEmpty(item: Value): (r: Result<bool>)
    ensures item.List? && (forall y :: y in item.items ==> Truthy(y)) ==> r == Ok(|item.items| <= 1)
    ensures item.Map? ==> r == Ok(|item.entries| <= 1)
    ensures !IsContainer(item) ==> r == Err(NameError)
  {
    match item
    case List(xs) => Ok(CountTruthy(xs) == 1 || xs == [])
    case Map(es) => Ok(|es| == 1 || es == [])
    case _ => Err(NameError)
  }

  /** `item.first`: the first element of an Array, the first pair of a
      Hash, nil when empty. */
  function First(item: Value): (r: Result<Value>)
    ensures item.List? ==> r == Ok(if item.items == [] then Nil else item.items[0])
    ensures item.Map? ==> r == Ok(if item.entries == [] then Nil else List([item.entries[0].key, item.entries[0].val]))
    ensures !IsContainer(item) ==> r == Err(NameError)
  {
    match item
    case List(xs) => Ok(if xs == [] then Nil else xs[0])
    case Map(es) => Ok(if es == [] then Nil else List([es[0].key, es[0].val]))
    case _ => Err(NameError)
  }

  // ---------------------------------------------------------------------
  // The match-index scan
  // ---------------------------------------------------------------------

  /** Whether a `kv_test_log` pair of the match map holds for `obj`, and
      no earlier pair raised. */
  predicate PairMatches(obj: Value, e: Entry)
  {
    KvTest(obj, e.key, e.val) == Ok(true)
  }

  /** `match.any? { |k, v| kv_test_log(obj, k, v) }`: stops at the first
      pair that holds; a pair whose test raises ends it with the error. */
  function AnyMatch(obj: Value, pairs: seq<Entry>): (r: Result<bool>)
    ensures pairs == [] ==> r == Ok(false)
    ensures pairs != [] && !RespondsToFetch(obj) ==> r == Err(ArgumentError)
    ensures obj.Map? ==> r == Ok(exists j :: 0 <= j < |pairs| && PairMatches(obj, pairs[j]))
    ensures r == Ok(true) ==> exists j :: 0 <= j < |pairs| && PairMatches(obj, pairs[j])
  {
    if pairs == [] then Ok(false)
    else
      var hit :- KvTest(obj, pairs[0].key, pairs[0].val);
      if hit then Ok(true)
      else
        var rest :- AnyMatch(obj, pairs[1..]);
        assert forall j :: 1 <= j < |pairs| ==> pairs[j] == pairs[1..][j - 1];
        Ok(rest)
  }

  /** What `each_with_index` enumerates: an Array's elements or a Hash's pairs. */
  function Elements(c: Value): (r: Result<seq<Value>>)
    ensures c.List? ==> r == Ok(c.items)
    ensures c.Map? ==> (r.Ok? && |r.value| == |c.entries| &&
      forall i :: 0 <= i < |c.entries| ==> r.value[i] == List([c.entries[i].key, c.entries[i].val]))
    ensures !IsContainer(c) ==> r == Err(NameError)
  {
    match c
    case List(xs) => Ok(xs)
    case Map(es) => Ok(seq(|es|, i requires 0 <= i < |es| => List([es[i].key, es[i].val])))
    case _ => Err(NameError)
  }

  /** The positions, from `from` on and in increasing order, of the elements
      satisfying some pair of the match map. */
  function MatchFrom(xs: seq<Value>, pairs: seq<Entry>, from: nat): (r: Result<seq<nat>>)
    requires from <= |xs|
    ensures r.Ok? ==> forall a, b :: 0 <= a < b < |r.value| ==> r.value[a] < r.value[b]
    ensures r.Ok? ==> forall a :: 0 <= a < |r.value| ==> from <= r.value[a] < |xs|
    ensures r.Ok? <==> forall i :: from <= i < |xs| ==> AnyMatch(xs[i], pairs).Ok?
    decreases |xs| - from
  {
    if from == |xs| then Ok([])
    else
      var hit :- AnyMatch(xs[from], pairs);
      var rest :- MatchFrom(xs, pairs, from + 1);
      Ok(if hit then [from] + rest else rest)
  }

  /** The positions listed are exactly the matching ones from `from` on. */
  lemma {:induction false} MatchFromMembers(xs: seq<Value>, pairs: seq<Entry>, from: nat)
    requires from <= |xs| && MatchFrom(xs, pairs, from).Ok?
    ensures forall i :: i in MatchFrom(xs, pairs, from).value <==> from <= i < |xs| && AnyMatch(xs[i], pairs) == Ok(true)
    decreases |xs| - from
  {
    if from < |xs| {
      MatchFromMembers(xs, pairs, from + 1);
    }
  }

  /** The matching positions, in decreasing order, as `select ... map(&:last)`
      followed by `reverse!` leaves them. */
  function MatchIndices(xs: seq<Value>, pairs: seq<Entry>): (r: Result<seq<nat>>)
    ensures r.Ok? ==> forall i :: i in r.value <==> 0 <= i < |xs| && AnyMatch(xs[i], pairs) == Ok(true)
    ensures r.Ok? ==> Descending(r.value, |xs|)
    ensures r.Ok? <==> forall i :: 0 <= i < |xs| ==> AnyMatch(xs[i], pairs).Ok?
  {
    var up :- MatchFrom(xs, pairs, 0);
    MatchFromMembers(xs, pairs, 0);
    Ok(Reverse(up))
  }

  function Reverse(s: seq<nat>): (r: seq<nat>)
    ensures |r| == |s| && forall i :: 0 <= i < |s| ==> r[i] == s[|s| - 1 - i]
    ensures forall x :: x in r <==> x in s
  {
    if s == [] then []
    else
      assert forall x :: x in s <==> x == s[0] || x in s[1..];
      Reverse(s[1..]) + [s[0]]
  }

  /** Strictly decreasing positions, all below `n`. */
  predicate Descending(idx: seq<nat>, n: nat)
  {
    (forall a, b :: 0 <= a < b < |idx| ==> idx[a] > idx[b]) && forall a :: 0 <= a < |idx| ==> idx[a] < n
  }

  // ---------------------------------------------------------------------
  // Positional deletion
  // ---------------------------------------------------------------------

  /** `idx.each { |i| list.delete_at(i) }`. */
  function DeleteAll(xs: seq<Value>, idx: seq<nat>): seq<Value>
    decreases |idx|
  {
    if idx == [] then xs else DeleteAll(DeleteAt(xs, idx[0]), idx[1..])
  }

  /** The elements whose position is not in `gone`, in their original order. */
  function Without(xs: seq<Value>, gone: set<nat>): (r: seq<Value>)
    ensures |r| <= |xs|
  {
    if xs == [] then []
    else Without(xs[..|xs| - 1], gone) + (if |xs| - 1 in gone then [] else [xs[|xs| - 1]])
  }

  /** Positions at or past `k` play no part below `k`. */
  lemma {:induction false} WithoutPrefix(xs: seq<Value>, gone: set<nat>, k: nat)
    requires k <= |xs| && forall g :: g in gone ==> g < k
    ensures Without(xs, gone) == Without(xs[..k], gone) + xs[k..]
    decreases |xs|
  {
    if |xs| > k {
      var init := xs[..|xs| - 1];
      WithoutPrefix(init, gone, k);
      assert init[..k] == xs[..k];
      assert init[k..] + [xs[|xs| - 1]] == xs[k..];
    } else {
      assert xs[..k] == xs;
    }
  }

  /** Removing one more position, above every other removed one. */
  lemma WithoutOneMore(xs: seq<Value>, gone: set<nat>, i: nat)
    requires i < |xs| && forall g :: g in gone ==> g < i
    ensures Without(xs[..i] + xs[i + 1..], gone) == Without(xs, gone + {i})
  {
    var ys := xs[..i] + xs[i + 1..];
    WithoutPrefix(ys, gone, i);
    assert ys[..i] == xs[..i] && ys[i..] == xs[i + 1..];
    WithoutPrefix(xs, gone + {i}, i + 1);
    assert xs[..i + 1][..i] == xs[..i];
    assert Without(xs[..i + 1], gone + {i}) == Without(xs[..i], gone + {i});
    WithoutSame(xs[..i], gone, gone + {i});
  }

  /** Only the positions inside the list matter. */
  lemma {:induction false} WithoutSame(xs: seq<Value>, g1: set<nat>, g2: set<nat>)
    requires forall p :: 0 <= p < |xs| ==> (p in g1 <==> p in g2)
    ensures Without(xs, g1) == Without(xs, g2)
  {
    if xs != [] {
      WithoutSame(xs[..|xs| - 1], g1, g2);
    }
  }

  /** Deleting positions in decreasing order removes exactly those positions
      and keeps every other element in its relative order. */
  lemma {:induction false} DeleteDescending(xs: seq<Value>, idx: seq<nat>)
    requires Descending(idx, |xs|)
    ensures DeleteAll(xs, idx) == Without(xs, set a | 0 <= a < |idx| :: idx[a])
    decreases |idx|
  {
    var gone := set a | 0 <= a < |idx| :: idx[a];
    if idx == [] {
      WithoutNone(xs);
      assert gone == {};
    } else {
      var i := idx[0];
      var rest := idx[1..];
      var ys := DeleteAt(xs, i);
      assert ys == xs[..i] + xs[i + 1..];
      assert Descending(rest, |ys|) by {
        forall a | 0 <= a < |rest| ensures rest[a] < |ys| {
          assert rest[a] == idx[a + 1] && idx[a + 1] < idx[0];
        }
      }
      DeleteDescending(ys, rest);
      var gr := set a | 0 <= a < |rest| :: rest[a];
      assert forall g :: g in gr ==> g < i by {
        forall g | g in gr ensures g < i {
          var a :| 0 <= a < |rest| && rest[a] == g;
          assert idx[a + 1] == g;
        }
      }
      WithoutOneMore(xs, gr, i);
      assert gone == gr + {i} by {
        forall g ensures g in gone <==> g in gr + {i} {
          if g in gone {
            var a :| 0 <= a < |idx| && idx[a] == g;
            if a > 0 { assert rest[a - 1] == g; }
          }
          if g in gr {
            var a :| 0 <= a < |rest| && rest[a] == g;
            assert idx[a + 1] == g;
          }
        }
      }
    }
  }

  lemma {:induction false} WithoutNone(xs: seq<Value>)
    ensures Without(xs, {}) == xs
  {
    if xs != [] {
      WithoutNone(xs[..|xs| - 1]);
    }
  }

  /** An element survives `Without` exactly when some position outside the
      removed set holds it. */
  lemma {:induction false} WithoutMembers(xs: seq<Value>, gone: set<nat>, y: Value)
    ensures y in Without(xs, gone) <==> exists p :: 0 <= p < |xs| && p !in gone && xs[p] == y
  {
    if xs != [] {
      var init := xs[..|xs| - 1];
      WithoutMembers(init, gone, y);
      if y in Without(xs, gone) && y !in Without(init, gone) {
        assert xs[|xs| - 1] == y;
      }
      if exists p :: 0 <= p < |xs| && p !in gone && xs[p] == y {
        var p :| 0 <= p < |xs| && p !in gone && xs[p] == y;
        if p < |xs| - 1 {
          assert init[p] == y;
        }
      }
    }
  }

  // ---------------------------------------------------------------------
  // delete_if { |e| e[key].eql?(value) }
  // ---------------------------------------------------------------------

  /** `Array#delete_if` with the element test.  When a test raises, the
      elements already judged are settled (those that passed are gone) and
      the rest stay; the error is returned beside the list. */
  function DeleteIfItems(xs: seq<Value>, key: Value, value: Value): (r: (seq<Value>, Result<bool>))
    ensures r.1.Ok? <==> forall i :: 0 <= i < |xs| ==> Test(xs[i], key, value).Ok?
    ensures r.1.Ok? ==> forall y :: y in r.0 <==> y in xs && Test(y, key, value) == Ok(false)
    ensures |r.0| <= |xs|
  {
    if xs == [] then ([], Ok(true))
    else
      match Test(xs[0], key, value)
      case Err(e) => (xs, Err(e))
      case Ok(del) =>
        var (rest, res) := DeleteIfItems(xs[1..], key, value);
        assert forall i :: 1 <= i < |xs| ==> xs[i] == xs[1..][i - 1];
        assert forall y :: y in xs <==> y == xs[0] || y in xs[1..];
        (if del then rest else [xs[0]] + rest, res)
  }

  /** `Hash#delete_if` with a one-parameter block: the block receives the
      key. */
  function DeleteIfEntries(es: seq<Entry>, key: Value, value: Value): (r: (seq<Entry>, Result<bool>))
    ensures r.1.Ok? <==> forall i :: 0 <= i < |es| ==> Test(es[i].key, key, value).Ok?
    ensures r.1.Ok? ==> forall e :: e in r.0 <==> e in es && Test(e.key, key, value) == Ok(false)
    ensures |r.0| <= |es|
  {
    if es == [] then ([], Ok(true))
    else
      match Test(es[0].key, key, value)
      case Err(e) => (es, Err(e))
      case Ok(del) =>
        var (rest, res) := DeleteIfEntries(es[1..], key, value);
        assert forall i :: 1 <= i < |es| ==> es[i] == es[1..][i - 1];
        assert forall y :: y in es <==> y == es[0] || y in es[1..];
        (if del then rest else [es[0]] + rest, res)
  }

  /** `c.delete_if { |e| e[key].eql?(value) }` on any value. */
  function DeleteIf(c: Value, key: Value, value: Value): (r: (Value, Result<bool>))
    ensures !IsContainer(c) ==> r == (c, Err(NameError))
    ensures r.1.Ok? ==> IsContainer(r.0) && r.0.List? == c.List?
  {
    match c
    case List(xs) => var (ys, res) := DeleteIfItems(xs, key, value); (List(ys), res)
    case Map(es) => var (fs, res) := DeleteIfEntries(es, key, value); (Map(fs), res)
    case _ => (c, Err(NameError))
  }

  /** `match.each { |k, v| c.delete_if { |e| e[k].eql?(v) } }`: one pass per pair. */
  function DeleteIfAny(c: Value, pairs: seq<Entry>): (r: (Value, Result<bool>))
    ensures pairs == [] ==> r == (c, Ok(true))
    decreases |pairs|
  {
    if pairs == [] then (c, Ok(true))
    else
      var (c1, res) := DeleteIf(c, pairs[0].key, pairs[0].val);
      if res.Err? then (c1, res) else DeleteIfAny(c1, pairs[1..])
  }

  /** The passes of `DeleteIfAny` over an Array remove exactly the elements
      satisfying some pair (a union of the pairs' tests), when no test raises. */
  lemma {:induction false} DeleteIfAnyIsUnion(xs: seq<Value>, pairs: seq<Entry>)
    requires DeleteIfAny(List(xs), pairs).1.Ok?
    ensures DeleteIfAny(List(xs), pairs).0.List?
    ensures forall y :: y in DeleteIfAny(List(xs), pairs).0.items <==>
      y in xs && forall j :: 0 <= j < |pairs| ==> Test(y, pairs[j].key, pairs[j].val) == Ok(false)
    decreases |pairs|
  {
    if pairs != [] {
      var (c1, res) := DeleteIf(List(xs), pairs[0].key, pairs[0].val);
      var ys := DeleteIfItems(xs, pairs[0].key, pairs[0].val).0;
      assert c1 == List(ys);
      DeleteIfAnyIsUnion(ys, pairs[1..]);
      assert forall j :: 1 <= j < |pairs| ==> pairs[j] == pairs[1..][j - 1];
    }
  }
}
