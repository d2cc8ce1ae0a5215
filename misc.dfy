/**
 * The rewrite's collection helpers (`accumulate`, `keyToMap`,
 * `multikeyToMap`, `sumByLong`) and `modifyIf` / `modifyUnless`.
 */
module Misc {
  import opened Util

  // ---------------------------------------------------------- accumulate

  /** The in-order concatenation of `f` over `xs`. */
  function Flatten<T, R>(xs: seq<T>, f: T -> seq<R>): seq<R>
  {
    if xs == [] then [] else Flatten(xs[..|xs| - 1], f) + f(xs[|xs| - 1])
  }

  /**
   * `accumulate(function)`: empty for no elements, `function(first)` for
   * one, and otherwise every `function(element)` appended in turn.
   */
  method Accumulate<T, R>(xs: seq<T>, f: T -> seq<R>) returns (r: seq<R>)
    ensures r == Flatten(xs, f)
  {
    if |xs| == 0 {
      return [];
    }
    if |xs| == 1 {
      assert xs[..0] == [];
      return f(xs[0]);
    }
    r := [];
    for i := 0 to |xs|
      invariant r == Flatten(xs[..i], f)
    {
      assert xs[..i + 1][..i] == xs[..i];
      r := r + f(xs[i]);
    }
    assert xs[..|xs|] == xs;
  }

  /** Accumulating a concatenation concatenates the accumulations. */
  lemma {:induction false} FlattenAppend<T, R>(a: seq<T>, b: seq<T>, f: T -> seq<R>)
    ensures Flatten(a + b, f) == Flatten(a, f) + Flatten(b, f)
    decreases |b|
  {
    if b != [] {
      var b' := b[..|b| - 1];
      assert (a + b)[..|a + b| - 1] == a + b';
      FlattenAppend(a, b', f);
    } else {
      assert a + b == a;
    }
  }

  /** Every result of every element appears, and nothing else does. */
  lemma {:induction false} FlattenMembers<T, R>(xs: seq<T>, f: T -> seq<R>, y: R)
    ensures y in Flatten(xs, f) <==> exists i :: 0 <= i < |xs| && y in f(xs[i])
    decreases |xs|
  {
    if xs != [] {
      var p := xs[..|xs| - 1];
      FlattenMembers(p, f, y);
      if exists i :: 0 <= i < |p| && y in f(p[i]) {
        var i :| 0 <= i < |p| && y in f(p[i]);
        assert xs[i] == p[i];
      }
      if exists i :: 0 <= i < |xs| && y in f(xs[i]) {
        var i :| 0 <= i < |xs| && y in f(xs[i]);
        if i < |p| {
          assert p[i] == xs[i];
        }
      }
    }
  }

  // ------------------------------------------------------------ keyToMap

  /** `mapOf(*map { function(it) to it })`: pairs put in order, so the later value wins. */
  function KeyToMap<K, V>(vs: seq<V>, f: V -> K): map<K, V>
  {
    if vs == [] then map[] else KeyToMap(vs[..|vs| - 1], f)[f(vs[|vs| - 1]) := vs[|vs| - 1]]
  }

  /** The keys are the keys of the values, and each maps to the last value with that key. */
  lemma {:induction false} KeyToMapLastWins<K, V>(vs: seq<V>, f: V -> K)
    ensures KeyToMap(vs, f).Keys == set i | 0 <= i < |vs| :: f(vs[i])
    ensures forall j :: 0 <= j < |vs| && (forall j' :: j < j' < |vs| ==> f(vs[j']) != f(vs[j])) ==>
      KeyToMap(vs, f)[f(vs[j])] == vs[j]
    decreases |vs|
  {
    if vs != [] {
      var p := vs[..|vs| - 1];
      KeyToMapLastWins(p, f);
      assert forall i :: 0 <= i < |p| ==> p[i] == vs[i];
      assert (set i | 0 <= i < |vs| :: f(vs[i])) == (set i | 0 <= i < |p| :: f(p[i])) + {f(vs[|vs| - 1])};
      forall j | 0 <= j < |vs| && (forall j' :: j < j' < |vs| ==> f(vs[j']) != f(vs[j]))
        ensures KeyToMap(vs, f)[f(vs[j])] == vs[j]
      {
        if j < |p| {
          assert f(vs[|vs| - 1]) != f(vs[j]);
          assert forall j' :: j < j' < |p| ==> f(p[j']) != f(p[j]);
        }
      }
    }
  }

  // ------------------------------------------------------- multikeyToMap

  /** `function(v).forEach { k -> map[k] = v }` for one value. */
  function PutKeys<K, V>(m: map<K, V>, ks: seq<K>, v: V): map<K, V>
  {
    if ks == [] then m else PutKeys(m, ks[..|ks| - 1], v)[ks[|ks| - 1] := v]
  }

  /** The map `multikeyToMap` builds: every key of every value, later values overwriting. */
  function MultikeyToMap<K, V>(vs: seq<V>, f: V -> seq<K>): map<K, V>
  {
    if vs == [] then map[] else PutKeys(MultikeyToMap(vs[..|vs| - 1], f), f(vs[|vs| - 1]), vs[|vs| - 1])
  }

  /** `multikeyToMap(function)`: a `forEach` over the values, and over each value's keys. */
  method MultikeyToMapLoop<K, V>(vs: seq<V>, f: V -> seq<K>) returns (m: map<K, V>)
    ensures m == MultikeyToMap(vs, f)
  {
    m := map[];
    for i := 0 to |vs|
      invariant m == MultikeyToMap(vs[..i], f)
    {
      assert vs[..i + 1][..i] == vs[..i];
      var ks := f(vs[i]);
      ghost var before := m;
      for j := 0 to |ks|
        invariant m == PutKeys(before, ks[..j], vs[i])
      {
        assert ks[..j + 1][..j] == ks[..j];
        m := m[ks[j] := vs[i]];
      }
      assert ks[..|ks|] == ks;
    }
    assert vs[..|vs|] == vs;
  }

  lemma {:induction false} PutKeysSpec<K, V>(m: map<K, V>, ks: seq<K>, v: V)
    ensures PutKeys(m, ks, v).Keys == m.Keys + set k | k in ks
    ensures forall k :: k in PutKeys(m, ks, v) ==> PutKeys(m, ks, v)[k] == if k in ks then v else m[k]
    decreases |ks|
  {
    if ks != [] {
      var p := ks[..|ks| - 1];
      PutKeysSpec(m, p, v);
      assert ks == p + [ks[|ks| - 1]];
      assert (set k | k in ks) == (set k | k in p) + {ks[|ks| - 1]};
    }
  }

  /** Every key of every value. */
  ghost function AllKeys<K, V>(vs: seq<V>, f: V -> seq<K>): set<K>
  {
    set i, k | 0 <= i < |vs| && k in f(vs[i]) :: k
  }

  ghost function SeqSet<K>(ks: seq<K>): set<K>
  {
    set k | k in ks
  }

  lemma AllKeysSnoc<K, V>(vs: seq<V>, f: V -> seq<K>)
    requires vs != []
    ensures AllKeys(vs, f) == AllKeys(vs[..|vs| - 1], f) + SeqSet(f(vs[|vs| - 1]))
  {
    var p := vs[..|vs| - 1];
    forall k | k in AllKeys(vs, f)
      ensures k in AllKeys(p, f) || k in f(vs[|vs| - 1])
    {
      var i :| 0 <= i < |vs| && k in f(vs[i]);
      if i < |p| {
        assert p[i] == vs[i];
      }
    }
    forall k | k in AllKeys(p, f)
      ensures k in AllKeys(vs, f)
    {
      var i :| 0 <= i < |p| && k in f(p[i]);
      assert p[i] == vs[i];
    }
    forall k | k in f(vs[|vs| - 1])
      ensures k in AllKeys(vs, f)
    {
    }
  }

  lemma {:induction false} MultikeyKeys<K, V>(vs: seq<V>, f: V -> seq<K>)
    ensures MultikeyToMap(vs, f).Keys == AllKeys(vs, f)
    decreases |vs|
  {
    if vs != [] {
      var p := vs[..|vs| - 1];
      MultikeyKeys(p, f);
      PutKeysSpec(MultikeyToMap(p, f), f(vs[|vs| - 1]), vs[|vs| - 1]);
      AllKeysSnoc(vs, f);
    }
  }

  /**
   * The keys are all keys of all values, and each maps to the last value
   * that has it.
   */
  lemma {:induction false} MultikeyToMapLastWins<K, V>(vs: seq<V>, f: V -> seq<K>)
    ensures MultikeyToMap(vs, f).Keys == set i, k | 0 <= i < |vs| && k in f(vs[i]) :: k
    ensures forall j, k :: 0 <= j < |vs| && k in f(vs[j]) && (forall j' :: j < j' < |vs| ==> k !in f(vs[j'])) ==>
      MultikeyToMap(vs, f)[k] == vs[j]
    decreases |vs|
  {
    MultikeyKeys(vs, f);
    if vs != [] {
      var p := vs[..|vs| - 1];
      var last := vs[|vs| - 1];
      MultikeyToMapLastWins(p, f);
      PutKeysSpec(MultikeyToMap(p, f), f(last), last);
      forall j, k | 0 <= j < |vs| && k in f(vs[j]) && (forall j' :: j < j' < |vs| ==> k !in f(vs[j']))
        ensures MultikeyToMap(vs, f)[k] == vs[j]
      {
        if j < |p| {
          assert k !in f(vs[|vs| - 1]);
          assert p[j] == vs[j];
          assert forall j' :: j < j' < |p| ==> p[j'] == vs[j'];
        }
      }
    }
  }

  // ------------------------------------------------------------ sumByLong

  const LONG_RANGE: int := 0x1_0000_0000_0000_0000

  predicate IsLong(x: int) { LONG_MIN <= x <= LONG_MAX }

  /** Two's-complement wrap-around of `Long` arithmetic. */
  function WrapLong(x: int): (r: int)
    ensures IsLong(r)
  {
    (x - LONG_MIN) % LONG_RANGE + LONG_MIN
  }

  /** The exact sum of `f` over `xs`. */
  function ExactSum<T>(xs: seq<T>, f: T -> int): int
  {
    if xs == [] then 0 else ExactSum(xs[..|xs| - 1], f) + f(xs[|xs| - 1])
  }

  /** `map(transform).sum()`: a `Long` accumulator, each addition wrapping. */
  function SumByLong<T>(xs: seq<T>, f: T -> int): int
  {
    if xs == [] then 0 else WrapLong(SumByLong(xs[..|xs| - 1], f) + f(xs[|xs| - 1]))
  }

  /** Wrapping after every step is wrapping once at the end. */
  lemma WrapAdd(a: int, b: int)
    ensures WrapLong(WrapLong(a) + b) == WrapLong(a + b)
  {
    var q := (a - LONG_MIN) / LONG_RANGE;
    assert WrapLong(a) == a - q * LONG_RANGE;
    var x := a + b - LONG_MIN;
    assert WrapLong(a) + b - LONG_MIN == x - q * LONG_RANGE;
    assert (x - q * LONG_RANGE) % LONG_RANGE == x % LONG_RANGE by {
      var r := x % LONG_RANGE;
      var d := x / LONG_RANGE;
      assert x - q * LONG_RANGE == (d - q) * LONG_RANGE + r;
    }
  }

  /** The `Long` sum is the exact sum wrapped into the `Long` range. */
  lemma {:induction false} SumByLongWraps<T>(xs: seq<T>, f: T -> int)
    requires xs != []
    ensures SumByLong(xs, f) == WrapLong(ExactSum(xs, f))
    decreases |xs|
  {
    var p := xs[..|xs| - 1];
    if p == [] {
      assert SumByLong(p, f) == 0 && ExactSum(p, f) == 0;
    } else {
      SumByLongWraps(p, f);
      WrapAdd(ExactSum(p, f), f(xs[|xs| - 1]));
    }
  }

  /** Without overflow the `Long` sum is the exact sum. */
  lemma SumByLongExact<T>(xs: seq<T>, f: T -> int)
    requires xs != [] && IsLong(ExactSum(xs, f))
    ensures SumByLong(xs, f) == ExactSum(xs, f)
  {
    SumByLongWraps(xs, f);
  }

  function Identity(x: int): int { x }

  /** Two `Long.MAX_VALUE`s sum to -2. */
  lemma SumByLongOverflows()
    ensures SumByLong([LONG_MAX, LONG_MAX], Identity) == -2
  {
    var xs: seq<int> := [LONG_MAX, LONG_MAX];
    assert xs[..1] == [LONG_MAX];
    assert [LONG_MAX][..0] == [];
    assert ExactSum([LONG_MAX], Identity) == LONG_MAX;
    assert ExactSum(xs, Identity) == 2 * LONG_MAX;
    SumByLongWraps(xs, Identity);
  }

  // ------------------------------------------------------------- modifyIf

  /** `x.modifyIf(condition, block)`. */
  function ModifyIf<T>(x: T, condition: bool, block: T -> T): T
  {
    if condition then block(x) else x
  }

  /** `x.modifyUnless(condition, block)`: `modifyIf(!condition, block)`. */
  function ModifyUnless<T>(x: T, condition: bool, block: T -> T): T
  {
    ModifyIf(x, !condition, block)
  }
}
