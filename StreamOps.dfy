/** The Stream operations whose behaviour the stream tests fix, as functions
    over the finite sequence of elements the stream would produce: reduce,
    mapping, batch, enumerate, group_by, zip, zip_longest, cycle, if_else and
    conditional, together with the counting oracles of the tests. */
module StreamOps {
  import opened Common
  import opened Utils
  import opened StreamHelper

  // ---------------------------------------------------------------------
  // reduce

  /** Left fold of `op` over `s`, starting from `acc`. */
  function FoldLeft<T>(op: (T, T) -> T, acc: T, s: seq<T>): T
  {
    if s == [] then acc else FoldLeft(op, op(acc, s[0]), s[1..])
  }

  /** Folding one more element applies `op` once more, on the right. */
  lemma {:induction false} FoldLeftSnoc<T>(op: (T, T) -> T, acc: T, s: seq<T>, x: T)
    ensures FoldLeft(op, acc, s + [x]) == op(FoldLeft(op, acc, s), x)
  {
    if s == [] {
      assert ([] + [x])[1..] == [];
    } else {
      assert (s + [x])[0] == s[0];
      assert (s + [x])[1..] == s[1..] + [x];
      FoldLeftSnoc(op, op(acc, s[0]), s[1..], x);
    }
  }

  /** reduce(op, initial_point): the left fold seeded by the initial point
      when one is given, by the first element otherwise; EMPTY for an empty
      stream without an initial point. */
  function Reduce<T>(s: seq<T>, op: (T, T) -> T, initial: Optional<T>): (r: Optional<T>)
    ensures r.Empty? <==> s == [] && initial.Empty?
    ensures s == [] ==> r == initial
  {
    match initial
    case Of(v) => Of(FoldLeft(op, v, s))
    case Empty => if s == [] then Empty else Of(FoldLeft(op, s[0], s[1..]))
  }

  /** Reduce consumes the stream one element at a time: the result for one
      more element is `op` of the previous result and that element (or the
      element itself when there was nothing before). */
  lemma ReduceSnoc<T>(s: seq<T>, op: (T, T) -> T, initial: Optional<T>, x: T)
    ensures Reduce(s + [x], op, initial)
            == Of(match Reduce(s, op, initial)
                  case Empty => x
                  case Of(acc) => op(acc, x))
  {
    match initial
    case Of(v) => FoldLeftSnoc(op, v, s, x);
    case Empty =>
      if s == [] {
        assert [] + [x] == [x] && [x][1..] == [];
      } else {
        assert (s + [x])[0] == s[0] && (s + [x])[1..] == s[1..] + [x];
        FoldLeftSnoc(op, s[0], s[1..], x);
      }
  }

  /** The examples of the stream tests, with addition. */
  lemma ReduceExamples()
    ensures Reduce([3, 4, 5, 6, 7, 8], (a: int, b: int) => a + b, Empty) == Of(33)
    ensures Reduce([], (a: int, b: int) => a + b, Empty) == Empty
    ensures Reduce([1], (a: int, b: int) => a + b, Empty) == Of(1)
    ensures Reduce([1, 2], (a: int, b: int) => a + b, Empty) == Of(3)
    ensures Reduce([], (a: int, b: int) => a + b, Of(10)) == Of(10)
    ensures Reduce([1], (a: int, b: int) => a + b, Of(10)) == Of(11)
    ensures Reduce([1, 2], (a: int, b: int) => a + b, Of(10)) == Of(13)
  {
    var add := (a: int, b: int) => a + b;
    var s := [3, 4, 5, 6, 7, 8];
    assert FoldLeft(add, 33, s[6..]) == 33;
    assert FoldLeft(add, 25, s[5..]) == 33;
    assert FoldLeft(add, 18, s[4..]) == 33;
    assert FoldLeft(add, 12, s[3..]) == 33;
    assert FoldLeft(add, 7, s[2..]) == 33;
    assert [1, 2][1..] == [2] && [2][1..] == [] && [1][1..] == [];
  }

  // ---------------------------------------------------------------------
  // mapping

  function Identity<T>(x: T): T { x }
  function One<T>(x: T): int { 1 }
  function Plus(a: int, b: int): int { a + b }

  /** The predicate "has key `k`". */
  function HasKey<T, K(==)>(keyFunc: T -> K, k: K): T -> bool
  {
    x => keyFunc(x) == k
  }

  /** mapping(key_func, value_func, resolve): one entry per distinct key; the
      first value of a key is stored as is, each later one is merged into it
      with `resolve(stored, new)`. */
  function Mapping<T, K(==), V>(s: seq<T>, keyFunc: T -> K, valueFunc: T -> V, resolve: (V, V) -> V): map<K, V>
  {
    if s == [] then map[]
    else
      var m := Mapping(s[..|s| - 1], keyFunc, valueFunc, resolve);
      var x := s[|s| - 1];
      var k := keyFunc(x);
      m[k := if k in m then resolve(m[k], valueFunc(x)) else valueFunc(x)]
  }

  /** One more element merges one more value into its key's entry. */
  lemma MappingSnoc<T, K, V>(s: seq<T>, x: T, keyFunc: T -> K, valueFunc: T -> V, resolve: (V, V) -> V)
    ensures var m := Mapping(s, keyFunc, valueFunc, resolve);
            var k := keyFunc(x);
            Mapping(s + [x], keyFunc, valueFunc, resolve)
            == m[k := if k in m then resolve(m[k], valueFunc(x)) else valueFunc(x)]
  {
    assert (s + [x])[..|s|] == s;
  }

  /** The values of the elements with key `k`, in source order. */
  function ValuesOf<T, K(==), V>(s: seq<T>, keyFunc: T -> K, valueFunc: T -> V, k: K): seq<V>
  {
    FilterTransform(s, HasKey(keyFunc, k), valueFunc)
  }

  lemma ValuesOfSnoc<T, K, V>(s: seq<T>, keyFunc: T -> K, valueFunc: T -> V, k: K, x: T)
    ensures ValuesOf(s + [x], keyFunc, valueFunc, k)
            == ValuesOf(s, keyFunc, valueFunc, k) + (if keyFunc(x) == k then [valueFunc(x)] else [])
  {
    FilterTransformAppend(s, [x], HasKey(keyFunc, k), valueFunc);
    FilterTransformSingle(x, HasKey(keyFunc, k), valueFunc);
  }

  /** A key is present exactly when some element has it, and its value is the
      left fold of `resolve` over that key's values in source order (so a key
      seen once keeps its value). */
  lemma {:induction false} MappingSpec<T, K, V>(s: seq<T>, keyFunc: T -> K, valueFunc: T -> V, resolve: (V, V) -> V, k: K)
    ensures var vs := ValuesOf(s, keyFunc, valueFunc, k);
            && (k in Mapping(s, keyFunc, valueFunc, resolve) <==> vs != [])
            && (vs != [] ==> Mapping(s, keyFunc, valueFunc, resolve)[k] == FoldLeft(resolve, vs[0], vs[1..]))
  {
    if s == [] {
      assert ValuesOf(s, keyFunc, valueFunc, k) == [];
    } else {
      var init, x := s[..|s| - 1], s[|s| - 1];
      assert s == init + [x];
      MappingSpec(init, keyFunc, valueFunc, resolve, k);
      MappingSnoc(init, x, keyFunc, valueFunc, resolve);
      ValuesOfSnoc(init, keyFunc, valueFunc, k, x);
      var vs0 := ValuesOf(init, keyFunc, valueFunc, k);
      var v := valueFunc(x);
      if keyFunc(x) == k {
        if vs0 == [] {
          assert ValuesOf(s, keyFunc, valueFunc, k) == [v];
          assert [v][1..] == [];
        } else {
          FoldLeftSnoc(resolve, vs0[0], vs0[1..], v);
          assert (vs0 + [v])[0] == vs0[0];
          assert (vs0 + [v])[1..] == vs0[1..] + [v];
        }
      } else {
        assert ValuesOf(s, keyFunc, valueFunc, k) == vs0;
      }
    }
  }

  function Square(x: int): int { x * x }
  function Mod2(x: int): int { x % 2 }
  function Mod3(x: int): int { x % 3 }

  /** The examples of the stream tests. */
  lemma MappingSquaresExample()
    ensures Mapping([5, 2, 5, 3, 4], Identity, Square, Plus) == map[5 := 50, 2 := 4, 3 := 9, 4 := 16]
  {
    assert [] + [5] == [5] && [5] + [2] == [5, 2] && [5, 2] + [5] == [5, 2, 5];
    assert [5, 2, 5] + [3] == [5, 2, 5, 3] && [5, 2, 5, 3] + [4] == [5, 2, 5, 3, 4];
    MappingSnoc([], 5, Identity, Square, Plus);
    MappingSnoc([5], 2, Identity, Square, Plus);
    MappingSnoc([5, 2], 5, Identity, Square, Plus);
    MappingSnoc([5, 2, 5], 3, Identity, Square, Plus);
    MappingSnoc([5, 2, 5, 3], 4, Identity, Square, Plus);
    var m := Mapping([5, 2, 5, 3, 4], Identity, Square, Plus);
    var expected := map[5 := 50, 2 := 4, 3 := 9, 4 := 16];
    assert forall k :: k in m <==> k in expected;
    assert m[5] == 50 && m[2] == 4 && m[3] == 9 && m[4] == 16;
  }

  lemma MappingParityExample()
    ensures Mapping([1, 2, 3, 4, 5, 6], Mod2, Identity, Plus) == map[1 := 9, 0 := 12]
  {
    assert [] + [1] == [1] && [1] + [2] == [1, 2] && [1, 2] + [3] == [1, 2, 3];
    assert [1, 2, 3] + [4] == [1, 2, 3, 4] && [1, 2, 3, 4] + [5] == [1, 2, 3, 4, 5];
    assert [1, 2, 3, 4, 5] + [6] == [1, 2, 3, 4, 5, 6];
    MappingSnoc([], 1, Mod2, Identity, Plus);
    MappingSnoc([1], 2, Mod2, Identity, Plus);
    MappingSnoc([1, 2], 3, Mod2, Identity, Plus);
    MappingSnoc([1, 2, 3], 4, Mod2, Identity, Plus);
    MappingSnoc([1, 2, 3, 4], 5, Mod2, Identity, Plus);
    MappingSnoc([1, 2, 3, 4, 5], 6, Mod2, Identity, Plus);
    var m := Mapping([1, 2, 3, 4, 5, 6], Mod2, Identity, Plus);
    var expected := map[1 := 9, 0 := 12];
    assert forall k :: k in m <==> k in expected;
    assert m[1] == 9 && m[0] == 12;
  }

  // ---------------------------------------------------------------------
  // batch

  /** Stream.batch(n): consecutive tuples of `n` elements, the last one
      possibly shorter, exactly the chunks of divide_in_chunk. */
  function Batch<T>(s: seq<T>, n: nat): (r: seq<seq<T>>)
    requires n >= 1
    ensures Flatten(r) == s
    ensures r == [] <==> s == []
  {
    ChunksFlatten(s, n);
    Chunks(s, n)
  }

  /** The example of the stream tests. */
  lemma BatchExample()
    ensures Batch([0, 1, 2, 3, 4, 5, 6, 7, 8, 9], 3) == [[0, 1, 2], [3, 4, 5], [6, 7, 8], [9]]
  {
    var s := [0, 1, 2, 3, 4, 5, 6, 7, 8, 9];
    assert s[9..] == [9];
    assert Chunks(s[9..], 3) == [[9]];
    assert s[6..][3..] == s[9..] && s[6..][..3] == [6, 7, 8];
    assert Chunks(s[6..], 3) == [[6, 7, 8], [9]];
    assert s[3..][3..] == s[6..] && s[3..][..3] == [3, 4, 5];
    assert Chunks(s[3..], 3) == [[3, 4, 5], [6, 7, 8], [9]];
    assert s[..3] == [0, 1, 2];
  }

  // ---------------------------------------------------------------------
  // enumerate

  /** Pairs each element with a counter that starts at `start`. */
  function EnumerateFrom<T>(s: seq<T>, start: int): seq<(int, T)>
  {
    if s == [] then [] else [(start, s[0])] + EnumerateFrom(s[1..], start + 1)
  }

  /** enumerate(): the counter starts at 0. */
  function Enumerate<T>(s: seq<T>): (r: seq<(int, T)>)
    ensures |r| == |s|
    ensures forall i :: 0 <= i < |s| ==> r[i] == (i, s[i])
  {
    EnumerateFromAt(s, 0);
    EnumerateFrom(s, 0)
  }

  /** Position `i` holds the pair (start + i, s[i]). */
  lemma {:induction false} EnumerateFromAt<T>(s: seq<T>, start: int)
    ensures |EnumerateFrom(s, start)| == |s|
    ensures forall i :: 0 <= i < |s| ==> EnumerateFrom(s, start)[i] == (start + i, s[i])
  {
    if s != [] {
      EnumerateFromAt(s[1..], start + 1);
      var r := EnumerateFrom(s, start);
      forall i | 0 <= i < |s| ensures r[i] == (start + i, s[i]) {
        if i > 0 { assert r[i] == EnumerateFrom(s[1..], start + 1)[i - 1]; }
      }
    }
  }

  /** Indices run from 0 to |s| - 1 in order, and dropping them gives the
      stream back. */
  lemma EnumerateSpec<T>(s: seq<T>)
    ensures |Enumerate(s)| == |s|
    ensures forall i :: 0 <= i < |s| ==> Enumerate(s)[i].0 == i
    ensures Map((p: (int, T)) => p.1, Enumerate(s)) == s
  {
    EnumerateFromAt(s, 0);
  }

  lemma EnumerateExample()
    ensures Enumerate([4, 5, 6, 7, 8, 9]) == [(0, 4), (1, 5), (2, 6), (3, 7), (4, 8), (5, 9)]
  {
    EnumerateFromAt([4, 5, 6, 7, 8, 9], 0);
  }

  // ---------------------------------------------------------------------
  // group_by

  /** group_by with ListType containers: on the first element of a key a new
      container is made, and every mapped value is added to its key's one. */
  function GroupByList<T, K(==), V>(s: seq<T>, keyHasher: T -> K, valueMapper: T -> V): map<K, seq<V>>
  {
    if s == [] then map[]
    else
      var m := GroupByList(s[..|s| - 1], keyHasher, valueMapper);
      var x := s[|s| - 1];
      var k := keyHasher(x);
      m[k := (if k in m then m[k] else []) + [valueMapper(x)]]
  }

  /** group_by with SetType containers. */
  function GroupBySet<T, K(==), V(==)>(s: seq<T>, keyHasher: T -> K, valueMapper: T -> V): map<K, set<V>>
  {
    if s == [] then map[]
    else
      var m := GroupBySet(s[..|s| - 1], keyHasher, valueMapper);
      var x := s[|s| - 1];
      var k := keyHasher(x);
      m[k := (if k in m then m[k] else {}) + {valueMapper(x)}]
  }

  lemma GroupByListSnoc<T, K, V>(s: seq<T>, x: T, keyHasher: T -> K, valueMapper: T -> V)
    ensures var m := GroupByList(s, keyHasher, valueMapper);
            var k := keyHasher(x);
            GroupByList(s + [x], keyHasher, valueMapper)
            == m[k := (if k in m then m[k] else []) + [valueMapper(x)]]
  {
    assert (s + [x])[..|s|] == s;
  }

  lemma GroupBySetSnoc<T, K, V>(s: seq<T>, x: T, keyHasher: T -> K, valueMapper: T -> V)
    ensures var m := GroupBySet(s, keyHasher, valueMapper);
            var k := keyHasher(x);
            GroupBySet(s + [x], keyHasher, valueMapper)
            == m[k := (if k in m then m[k] else {}) + {valueMapper(x)}]
  {
    assert (s + [x])[..|s|] == s;
  }

  /** With ListType, a key has a container exactly when some element has the
      key, and the container holds the mapped values of those elements in
      source order. */
  lemma {:induction false} GroupByListSpec<T, K, V>(s: seq<T>, keyHasher: T -> K, valueMapper: T -> V, k: K)
    ensures k in GroupByList(s, keyHasher, valueMapper) <==> ValuesOf(s, keyHasher, valueMapper, k) != []
    ensures k in GroupByList(s, keyHasher, valueMapper) ==>
              GroupByList(s, keyHasher, valueMapper)[k] == ValuesOf(s, keyHasher, valueMapper, k)
  {
    if s == [] {
      assert ValuesOf(s, keyHasher, valueMapper, k) == [];
    } else {
      var init, x := s[..|s| - 1], s[|s| - 1];
      assert s == init + [x];
      GroupByListSpec(init, keyHasher, valueMapper, k);
      GroupByListSnoc(init, x, keyHasher, valueMapper);
      ValuesOfSnoc(init, keyHasher, valueMapper, k, x);
      if keyHasher(x) == k && ValuesOf(init, keyHasher, valueMapper, k) == [] {
        assert [] + [valueMapper(x)] == [valueMapper(x)];
      }
    }
  }

  /** Every element lands in the container of its own key. */
  lemma GroupByListPlacesEveryElement<T, K, V>(s: seq<T>, keyHasher: T -> K, valueMapper: T -> V, i: int)
    requires 0 <= i < |s|
    ensures keyHasher(s[i]) in GroupByList(s, keyHasher, valueMapper)
    ensures valueMapper(s[i]) in GroupByList(s, keyHasher, valueMapper)[keyHasher(s[i])]
  {
    var k := keyHasher(s[i]);
    FilterTransformMembers(s, HasKey(keyHasher, k), valueMapper, valueMapper(s[i]));
    GroupByListSpec(s, keyHasher, valueMapper, k);
  }

  /** With SetType, each container holds exactly the distinct values the
      ListType container of the same key holds. */
  lemma {:induction false} GroupBySetSpec<T, K, V>(s: seq<T>, keyHasher: T -> K, valueMapper: T -> V)
    ensures GroupBySet(s, keyHasher, valueMapper).Keys == GroupByList(s, keyHasher, valueMapper).Keys
    ensures forall k :: k in GroupBySet(s, keyHasher, valueMapper) ==>
              forall v :: v in GroupBySet(s, keyHasher, valueMapper)[k]
                          <==> v in GroupByList(s, keyHasher, valueMapper)[k]
  {
    if s != [] {
      var init, x := s[..|s| - 1], s[|s| - 1];
      assert s == init + [x];
      GroupBySetSpec(init, keyHasher, valueMapper);
      GroupByListSnoc(init, x, keyHasher, valueMapper);
      GroupBySetSnoc(init, x, keyHasher, valueMapper);
    }
  }

  // The group_by examples below name their input through a predicate
  // (IsRange10, IsParityInput) instead of writing the literal in the call.
  // With a literal argument the verifier unfolds GroupByList on every prefix
  // of it at once; with a named input it follows the steps given, one
  // element at a time (the ...Prefix lemmas, two elements each).

  /** One more element of `s` grouped, with the groupings before and after
      the step given as plain maps. */
  lemma GroupByListStep<T, K, V>(s: seq<T>, n: nat, keyHasher: T -> K, valueMapper: T -> V,
                                 before: map<K, seq<V>>, after: map<K, seq<V>>)
    requires n < |s|
    requires n == 0 ==> before == map[]
    requires n > 0 ==> GroupByList(s[..n], keyHasher, valueMapper) == before
    requires var k := keyHasher(s[n]);
             after == before[k := (if k in before then before[k] else []) + [valueMapper(s[n])]]
    ensures GroupByList(s[..n + 1], keyHasher, valueMapper) == after
  {
    assert s[..n + 1][..n] == s[..n];
  }

  /** The same step for SetType containers. */
  lemma GroupBySetStep<T, K, V>(s: seq<T>, n: nat, keyHasher: T -> K, valueMapper: T -> V,
                                before: map<K, set<V>>, after: map<K, set<V>>)
    requires n < |s|
    requires n == 0 ==> before == map[]
    requires n > 0 ==> GroupBySet(s[..n], keyHasher, valueMapper) == before
    requires var k := keyHasher(s[n]);
             after == before[k := (if k in before then before[k] else {}) + {valueMapper(s[n])}]
    ensures GroupBySet(s[..n + 1], keyHasher, valueMapper) == after
  {
    assert s[..n + 1][..n] == s[..n];
  }

  /** range(10), as the stream tests build it. */
  predicate IsRange10(s: seq<int>)
  {
    s == [0, 1, 2, 3, 4, 5, 6, 7, 8, 9]
  }

  lemma GroupByListMod3ExamplePrefix2(s: seq<int>)
    requires IsRange10(s)
    ensures GroupByList(s[..2], Mod3, Identity) == map[0 := [0], 1 := [1]]
  {
    assert [] + [0] == [0];
    GroupByListStep(s, 0, Mod3, Identity, map[], map[0 := [0]]);
    assert [] + [1] == [1];
    GroupByListStep(s, 1, Mod3, Identity, map[0 := [0]], map[0 := [0], 1 := [1]]);
  }

  lemma GroupByListMod3ExamplePrefix4(s: seq<int>)
    requires IsRange10(s)
    ensures GroupByList(s[..4], Mod3, Identity) == map[0 := [0, 3], 1 := [1], 2 := [2]]
  {
    GroupByListMod3ExamplePrefix2(s);
    assert [] + [2] == [2];
    GroupByListStep(s, 2, Mod3, Identity, map[0 := [0], 1 := [1]], map[0 := [0], 1 := [1], 2 := [2]]);
    assert [0] + [3] == [0, 3];
    GroupByListStep(s, 3, Mod3, Identity, map[0 := [0], 1 := [1], 2 := [2]], map[0 := [0, 3], 1 := [1], 2 := [2]]);
  }

  lemma GroupByListMod3ExamplePrefix6(s: seq<int>)
    requires IsRange10(s)
    ensures GroupByList(s[..6], Mod3, Identity) == map[0 := [0, 3], 1 := [1, 4], 2 := [2, 5]]
  {
    GroupByListMod3ExamplePrefix4(s);
    assert [1] + [4] == [1, 4];
    GroupByListStep(s, 4, Mod3, Identity, map[0 := [0, 3], 1 := [1], 2 := [2]], map[0 := [0, 3], 1 := [1, 4], 2 := [2]]);
    assert [2] + [5] == [2, 5];
    GroupByListStep(s, 5, Mod3, Identity, map[0 := [0, 3], 1 := [1, 4], 2 := [2]], map[0 := [0, 3], 1 := [1, 4], 2 := [2, 5]]);
  }

  lemma GroupByListMod3ExamplePrefix8(s: seq<int>)
    requires IsRange10(s)
    ensures GroupByList(s[..8], Mod3, Identity) == map[0 := [0, 3, 6], 1 := [1, 4, 7], 2 := [2, 5]]
  {
    GroupByListMod3ExamplePrefix6(s);
    assert [0, 3] + [6] == [0, 3, 6];
    GroupByListStep(s, 6, Mod3, Identity, map[0 := [0, 3], 1 := [1, 4], 2 := [2, 5]], map[0 := [0, 3, 6], 1 := [1, 4], 2 := [2, 5]]);
    assert [1, 4] + [7] == [1, 4, 7];
    GroupByListStep(s, 7, Mod3, Identity, map[0 := [0, 3, 6], 1 := [1, 4], 2 := [2, 5]], map[0 := [0, 3, 6], 1 := [1, 4, 7], 2 := [2, 5]]);
  }

  /** The example of the stream tests: range(10) grouped by remainder mod 3. */
  lemma GroupByListMod3Example(s: seq<int>)
    requires IsRange10(s)
    ensures GroupByList(s, Mod3, Identity) == map[0 := [0, 3, 6, 9], 1 := [1, 4, 7], 2 := [2, 5, 8]]
  {
    GroupByListMod3ExamplePrefix8(s);
    assert [2, 5] + [8] == [2, 5, 8];
    GroupByListStep(s, 8, Mod3, Identity, map[0 := [0, 3, 6], 1 := [1, 4, 7], 2 := [2, 5]], map[0 := [0, 3, 6], 1 := [1, 4, 7], 2 := [2, 5, 8]]);
    assert [0, 3, 6] + [9] == [0, 3, 6, 9];
    GroupByListStep(s, 9, Mod3, Identity, map[0 := [0, 3, 6], 1 := [1, 4, 7], 2 := [2, 5, 8]], map[0 := [0, 3, 6, 9], 1 := [1, 4, 7], 2 := [2, 5, 8]]);
    assert s[..10] == s;
  }

  /** A value mapper only transforms the containers: grouping with
      `valueMapper` gives the same keys as grouping the elements themselves,
      and each container is the mapped container of the plain grouping. */
  lemma GroupByListValueMapper<T, K, V>(s: seq<T>, keyHasher: T -> K, valueMapper: T -> V, k: K)
    ensures k in GroupByList(s, keyHasher, valueMapper) <==> k in GroupByList(s, keyHasher, Identity)
    ensures k in GroupByList(s, keyHasher, Identity) ==>
              GroupByList(s, keyHasher, valueMapper)[k] == Map(valueMapper, GroupByList(s, keyHasher, Identity)[k])
  {
    GroupByListSpec(s, keyHasher, valueMapper, k);
    GroupByListSpec(s, keyHasher, Identity, k);
    var kept := Filter(HasKey(keyHasher, k), s);
    assert Map(Identity, kept) == kept;
    assert |ValuesOf(s, keyHasher, valueMapper, k)| == |kept|;
  }

  /** Grouping with a value mapper gives the same keys as the plain grouping. */
  lemma GroupByListValueMapperKeys<T, K, V>(s: seq<T>, keyHasher: T -> K, valueMapper: T -> V)
    ensures GroupByList(s, keyHasher, valueMapper).Keys == GroupByList(s, keyHasher, Identity).Keys
  {
    forall k | k in GroupByList(s, keyHasher, valueMapper) || k in GroupByList(s, keyHasher, Identity)
      ensures k in GroupByList(s, keyHasher, valueMapper) <==> k in GroupByList(s, keyHasher, Identity)
    {
      GroupByListValueMapper(s, keyHasher, valueMapper, k);
    }
  }

  /** The example of the stream tests: range(10) grouped by remainder mod 3,
      each value squared. */
  lemma GroupByListSquaresExample(s: seq<int>)
    requires IsRange10(s)
    ensures GroupByList(s, Mod3, Square) == map[0 := [0, 9, 36, 81], 1 := [1, 16, 49], 2 := [4, 25, 64]]
  {
    GroupByListMod3Example(s);
    var m := GroupByList(s, Mod3, Square);
    GroupByListValueMapperKeys(s, Mod3, Square);
    GroupByListValueMapper(s, Mod3, Square, 0);
    GroupByListValueMapper(s, Mod3, Square, 1);
    GroupByListValueMapper(s, Mod3, Square, 2);
    assert Map(Square, [0, 3, 6, 9]) == [0, 9, 36, 81];
    assert Map(Square, [1, 4, 7]) == [1, 16, 49];
    assert Map(Square, [2, 5, 8]) == [4, 25, 64];
    assert m.Keys == {0, 1, 2};
  }

  /** The input of the parity examples of the stream tests. */
  predicate IsParityInput(s: seq<int>)
  {
    s == [1, 2, 3, 4, 2, 4]
  }

  lemma GroupByListParityExamplePrefix2(s: seq<int>)
    requires IsParityInput(s)
    ensures GroupByList(s[..2], Mod2, Identity) == map[1 := [1], 0 := [2]]
  {
    assert [] + [1] == [1];
    GroupByListStep(s, 0, Mod2, Identity, map[], map[1 := [1]]);
    assert [] + [2] == [2];
    GroupByListStep(s, 1, Mod2, Identity, map[1 := [1]], map[1 := [1], 0 := [2]]);
  }

  lemma GroupByListParityExamplePrefix4(s: seq<int>)
    requires IsParityInput(s)
    ensures GroupByList(s[..4], Mod2, Identity) == map[1 := [1, 3], 0 := [2, 4]]
  {
    GroupByListParityExamplePrefix2(s);
    assert [1] + [3] == [1, 3];
    GroupByListStep(s, 2, Mod2, Identity, map[1 := [1], 0 := [2]], map[1 := [1, 3], 0 := [2]]);
    assert [2] + [4] == [2, 4];
    GroupByListStep(s, 3, Mod2, Identity, map[1 := [1, 3], 0 := [2]], map[1 := [1, 3], 0 := [2, 4]]);
  }

  lemma GroupByListParityExample(s: seq<int>)
    requires IsParityInput(s)
    ensures GroupByList(s, Mod2, Identity) == map[1 := [1, 3], 0 := [2, 4, 2, 4]]
  {
    GroupByListParityExamplePrefix4(s);
    assert [2, 4] + [2] == [2, 4, 2];
    GroupByListStep(s, 4, Mod2, Identity, map[1 := [1, 3], 0 := [2, 4]], map[1 := [1, 3], 0 := [2, 4, 2]]);
    assert [2, 4, 2] + [4] == [2, 4, 2, 4];
    GroupByListStep(s, 5, Mod2, Identity, map[1 := [1, 3], 0 := [2, 4, 2]], map[1 := [1, 3], 0 := [2, 4, 2, 4]]);
    assert s[..6] == s;
  }

  lemma GroupBySetParityExamplePrefix2(s: seq<int>)
    requires IsParityInput(s)
    ensures GroupBySet(s[..2], Mod2, Identity) == map[1 := {1}, 0 := {2}]
  {
    assert {} + {1} == {1};
    GroupBySetStep(s, 0, Mod2, Identity, map[], map[1 := {1}]);
    assert {} + {2} == {2};
    GroupBySetStep(s, 1, Mod2, Identity, map[1 := {1}], map[1 := {1}, 0 := {2}]);
  }

  lemma GroupBySetParityExamplePrefix4(s: seq<int>)
    requires IsParityInput(s)
    ensures GroupBySet(s[..4], Mod2, Identity) == map[1 := {1, 3}, 0 := {2, 4}]
  {
    GroupBySetParityExamplePrefix2(s);
    assert {1} + {3} == {1, 3};
    GroupBySetStep(s, 2, Mod2, Identity, map[1 := {1}, 0 := {2}], map[1 := {1, 3}, 0 := {2}]);
    assert {2} + {4} == {2, 4};
    GroupBySetStep(s, 3, Mod2, Identity, map[1 := {1, 3}, 0 := {2}], map[1 := {1, 3}, 0 := {2, 4}]);
  }

  lemma GroupBySetParityExample(s: seq<int>)
    requires IsParityInput(s)
    ensures GroupBySet(s, Mod2, Identity) == map[1 := {1, 3}, 0 := {2, 4}]
  {
    GroupBySetParityExamplePrefix4(s);
    assert {2, 4} + {2} == {2, 4};
    GroupBySetStep(s, 4, Mod2, Identity, map[1 := {1, 3}, 0 := {2, 4}], map[1 := {1, 3}, 0 := {2, 4}]);
    assert {2, 4} + {4} == {2, 4};
    GroupBySetStep(s, 5, Mod2, Identity, map[1 := {1, 3}, 0 := {2, 4}], map[1 := {1, 3}, 0 := {2, 4}]);
    assert s[..6] == s;
  }

  // ---------------------------------------------------------------------
  // zip and zip_longest

  /** Positional tuples are modelled as sequences. */
  type Row<T> = seq<T>

  /** The length of the shortest sequence. */
  function MinLen<T>(seqs: seq<seq<T>>): (r: nat)
    requires |seqs| >= 1
    ensures forall j :: 0 <= j < |seqs| ==> r <= |seqs[j]|
    ensures exists j :: 0 <= j < |seqs| && r == |seqs[j]|
  {
    if |seqs| == 1 then |seqs[0]|
    else
      var m := MinLen(seqs[1..]);
      assert forall j :: 1 <= j < |seqs| ==> seqs[j] == seqs[1..][j - 1];
      if |seqs[0]| <= m then |seqs[0]| else m
  }

  /** The length of the longest sequence. */
  function MaxLen<T>(seqs: seq<seq<T>>): (r: nat)
    ensures forall j :: 0 <= j < |seqs| ==> |seqs[j]| <= r
    ensures |seqs| > 0 ==> exists j :: 0 <= j < |seqs| && r == |seqs[j]|
    ensures |seqs| == 0 ==> r == 0
  {
    if |seqs| == 0 then 0
    else
      var m := MaxLen(seqs[1..]);
      assert forall j :: 1 <= j < |seqs| ==> seqs[j] == seqs[1..][j - 1];
      if |seqs[0]| >= m then |seqs[0]| else m
  }

  /** Every sequence without its first element; an exhausted one stays empty. */
  function Tails<T>(seqs: seq<seq<T>>): (r: seq<seq<T>>)
    ensures |r| == |seqs|
    ensures forall j :: 0 <= j < |seqs| ==> r[j] == if seqs[j] == [] then [] else seqs[j][1..]
  {
    seq(|seqs|, j requires 0 <= j < |seqs| => if seqs[j] == [] then [] else seqs[j][1..])
  }

  /** The first element of each sequence, `fill` for an exhausted one. */
  function HeadsOr<T>(seqs: seq<seq<T>>, fill: T): (r: Row<T>)
    ensures |r| == |seqs|
    ensures forall j :: 0 <= j < |seqs| ==> r[j] == if seqs[j] == [] then fill else seqs[j][0]
  {
    seq(|seqs|, j requires 0 <= j < |seqs| => if seqs[j] == [] then fill else seqs[j][0])
  }

  /** Some sequence is exhausted. */
  predicate AnyExhausted<T>(seqs: seq<seq<T>>)
  {
    exists j :: 0 <= j < |seqs| && seqs[j] == []
  }

  /** Every sequence is exhausted. */
  predicate AllExhausted<T>(seqs: seq<seq<T>>)
  {
    forall j :: 0 <= j < |seqs| ==> seqs[j] == []
  }

  /** Python's `zip(*seqs)`: one row per position, stopping at the first
      exhausted sequence. */
  function Zip<T>(seqs: seq<seq<T>>): seq<Row<T>>
    requires |seqs| >= 1
    decreases |seqs[0]|
  {
    if AnyExhausted(seqs) then []
    else [HeadsOr(seqs, seqs[0][0])] + Zip(Tails(seqs))
  }

  /** The total number of elements still to come. */
  function SumLen<T>(seqs: seq<seq<T>>): nat
  {
    if seqs == [] then 0 else |seqs[0]| + SumLen(seqs[1..])
  }

  lemma {:induction false} SumLenTails<T>(seqs: seq<seq<T>>)
    ensures !AllExhausted(seqs) ==> SumLen(Tails(seqs)) < SumLen(seqs)
    ensures SumLen(Tails(seqs)) <= SumLen(seqs)
  {
    if seqs != [] {
      assert Tails(seqs)[1..] == Tails(seqs[1..]);
      SumLenTails(seqs[1..]);
      if !AllExhausted(seqs) && seqs[0] == [] {
        var j :| 0 <= j < |seqs| && seqs[j] != [];
        assert seqs[1..][j - 1] == seqs[j];
      }
    }
  }

  /** Python's `zip_longest(*seqs, fillvalue=fill)`: one row per position
      until every sequence is exhausted, `fill` standing in for the
      exhausted ones. */
  function ZipLongest<T>(seqs: seq<seq<T>>, fill: T): seq<Row<T>>
    decreases SumLen(seqs)
  {
    if AllExhausted(seqs) then []
    else
      SumLenTails(seqs);
      [HeadsOr(seqs, fill)] + ZipLongest(Tails(seqs), fill)
  }

  /** zip stops at the shortest input. */
  lemma {:induction false} ZipLength<T>(seqs: seq<seq<T>>)
    requires |seqs| >= 1
    ensures |Zip(seqs)| == MinLen(seqs)
    decreases |seqs[0]|
  {
    if !AnyExhausted(seqs) {
      var t := Tails(seqs);
      ZipLength(t);
      var j0 :| 0 <= j0 < |t| && MinLen(t) == |t[j0]|;
      var j1 :| 0 <= j1 < |seqs| && MinLen(seqs) == |seqs[j1]|;
      assert seqs[j0] != [] && seqs[j1] != [];
      assert |t[j0]| == |seqs[j0]| - 1 && |t[j1]| == |seqs[j1]| - 1;
      assert MinLen(t) <= |t[j1]|;
      assert MinLen(seqs) <= |seqs[j0]|;
      assert MinLen(t) == MinLen(seqs) - 1;
      assert |Zip(seqs)| == 1 + |Zip(t)|;
    } else {
      var j :| 0 <= j < |seqs| && seqs[j] == [];
      assert MinLen(seqs) <= |seqs[j]|;
    }
  }

  /** Row `i` of zip holds the `i`-th element of every input, in input order. */
  lemma {:induction false} ZipAt<T>(seqs: seq<seq<T>>, i: int, j: int)
    requires |seqs| >= 1 && 0 <= i < |Zip(seqs)| && 0 <= j < |seqs|
    ensures |Zip(seqs)[i]| == |seqs| && i < |seqs[j]| && Zip(seqs)[i][j] == seqs[j][i]
    decreases i
  {
    assert !AnyExhausted(seqs);
    assert seqs[j] != [];
    if i > 0 {
      var t := Tails(seqs);
      assert Zip(seqs)[i] == Zip(t)[i - 1];
      ZipAt(t, i - 1, j);
    }
  }

  /** Dropping one element from every sequence that has one shortens the
      longest sequence by one. */
  lemma MaxLenTails<T>(seqs: seq<seq<T>>)
    requires !AllExhausted(seqs)
    ensures MaxLen(Tails(seqs)) == MaxLen(seqs) - 1
  {
    var t := Tails(seqs);
    var j0 :| 0 <= j0 < |t| && MaxLen(t) == |t[j0]|;
    var j1 :| 0 <= j1 < |seqs| && MaxLen(seqs) == |seqs[j1]|;
    var j2 :| 0 <= j2 < |seqs| && seqs[j2] != [];
    assert |seqs[j2]| <= MaxLen(seqs);
    assert |t[j1]| <= MaxLen(t);
    assert |seqs[j0]| <= MaxLen(seqs);
  }

  /** zip_longest runs to the longest input. */
  lemma {:induction false} ZipLongestLength<T>(seqs: seq<seq<T>>, fill: T)
    ensures |ZipLongest(seqs, fill)| == MaxLen(seqs)
    decreases SumLen(seqs)
  {
    if AllExhausted(seqs) {
      if |seqs| > 0 {
        var j :| 0 <= j < |seqs| && MaxLen(seqs) == |seqs[j]|;
      }
    } else {
      SumLenTails(seqs);
      ZipLongestLength(Tails(seqs), fill);
      MaxLenTails(seqs);
    }
  }

  /** Row `i` of zip_longest holds the `i`-th element of every input that has
      one and `fill` for every input that does not. */
  lemma {:induction false} ZipLongestAt<T>(seqs: seq<seq<T>>, fill: T, i: int, j: int)
    requires 0 <= i < |ZipLongest(seqs, fill)| && 0 <= j < |seqs|
    ensures |ZipLongest(seqs, fill)[i]| == |seqs|
    ensures ZipLongest(seqs, fill)[i][j] == if i < |seqs[j]| then seqs[j][i] else fill
    decreases i
  {
    assert !AllExhausted(seqs);
    if i > 0 {
      var t := Tails(seqs);
      assert ZipLongest(seqs, fill)[i] == ZipLongest(t, fill)[i - 1];
      ZipLongestAt(t, fill, i - 1, j);
    }
  }

  /** The stream's own elements first (after = true) or last (after = false),
      the other sequences in argument order. */
  function Arrange<T>(s: seq<T>, others: seq<seq<T>>, after: bool): (r: seq<seq<T>>)
    ensures |r| == |others| + 1
  {
    if after then [s] + others else others + [s]
  }

  /** Where the stream and each other input sit among the arranged inputs. */
  lemma ArrangeAt<T>(s: seq<T>, others: seq<seq<T>>, after: bool)
    ensures Arrange(s, others, after)[if after then 0 else |others|] == s
    ensures forall j :: 0 <= j < |others| ==> Arrange(s, others, after)[if after then j + 1 else j] == others[j]
  {
  }

  /** Stream.zip(*others, after). */
  function StreamZip<T>(s: seq<T>, others: seq<seq<T>>, after: bool): (r: seq<Row<T>>)
    ensures |r| <= |s|
    ensures forall j :: 0 <= j < |others| ==> |r| <= |others[j]|
  {
    var a := Arrange(s, others, after);
    ZipLength(a);
    ArrangeAt(s, others, after);
    Zip(a)
  }

  /** Stream.zip_longest(*others, after, fillvalue). */
  function StreamZipLongest<T>(s: seq<T>, others: seq<seq<T>>, after: bool, fill: T): (r: seq<Row<T>>)
    ensures |s| <= |r|
    ensures forall j :: 0 <= j < |others| ==> |others[j]| <= |r|
  {
    var a := Arrange(s, others, after);
    ZipLongestLength(a, fill);
    ArrangeAt(s, others, after);
    ZipLongest(a, fill)
  }

  /** Putting the first sequence last leaves the shortest length alone. */
  lemma MinLenRotate<T>(s: seq<T>, others: seq<seq<T>>)
    ensures MinLen(Arrange(s, others, true)) == MinLen(Arrange(s, others, false))
  {
    var a, b := Arrange(s, others, true), Arrange(s, others, false);
    var ja :| 0 <= ja < |a| && MinLen(a) == |a[ja]|;
    var jb :| 0 <= jb < |b| && MinLen(b) == |b[jb]|;
    if ja == 0 {
      assert a[0] == b[|others|];
    } else {
      assert a[ja] == b[ja - 1];
    }
    if jb == |others| {
      assert b[jb] == a[0];
    } else {
      assert b[jb] == a[jb + 1];
    }
  }

  /** Row `i` of the zip with the first sequence put last is row `i` of the
      original zip with its first element moved to the back. */
  lemma {:induction false} ZipRotateRow<T>(s: seq<T>, others: seq<seq<T>>, i: int)
    requires 0 <= i < |Zip(Arrange(s, others, true))| && i < |Zip(Arrange(s, others, false))|
    ensures var row := Zip(Arrange(s, others, true))[i];
            |row| == |others| + 1 && Zip(Arrange(s, others, false))[i] == row[1..] + [row[0]]
  {
    var a, b := Arrange(s, others, true), Arrange(s, others, false);
    ZipAt(a, i, 0);
    ZipAt(b, i, 0);
    var row, row' := Zip(a)[i], Zip(b)[i];
    var moved := row[1..] + [row[0]];
    assert |moved| == |row'|;
    forall j | 0 <= j < |row'| ensures row'[j] == moved[j] {
      ZipAt(b, i, j);
      if j < |others| {
        ZipAt(a, i, j + 1);
        assert b[j] == a[j + 1];
      } else {
        assert b[j] == a[0];
      }
    }
  }

  /** `after` only moves the stream's element from the front of each row to
      its back; the rows are otherwise the same. */
  lemma StreamZipAfter<T>(s: seq<T>, others: seq<seq<T>>, i: int)
    requires 0 <= i < |StreamZip(s, others, true)|
    ensures |StreamZip(s, others, false)| == |StreamZip(s, others, true)|
    ensures var row := StreamZip(s, others, true)[i];
            |row| == |others| + 1 && i < |s| && row[0] == s[i]
            && StreamZip(s, others, false)[i] == row[1..] + [row[0]]
  {
    var a, b := Arrange(s, others, true), Arrange(s, others, false);
    ZipLength(a);
    ZipLength(b);
    MinLenRotate(s, others);
    ZipAt(a, i, 0);
    ZipRotateRow(s, others, i);
  }

  /** zip_longest covers zip: the rows agree up to the shortest input. */
  lemma ZipLongestExtendsZip<T>(s: seq<T>, others: seq<seq<T>>, after: bool, fill: T, i: int)
    requires 0 <= i < |StreamZip(s, others, after)|
    ensures i < |StreamZipLongest(s, others, after, fill)|
    ensures StreamZipLongest(s, others, after, fill)[i] == StreamZip(s, others, after)[i]
  {
    var a := Arrange(s, others, after);
    ZipLength(a);
    ZipLongestLength(a, fill);
    assert |a[0]| <= MaxLen(a);
    ZipAt(a, i, 0);
    ZipLongestAt(a, fill, i, 0);
    forall j | 0 <= j < |a|
      ensures ZipLongest(a, fill)[i][j] == Zip(a)[i][j]
    {
      ZipAt(a, i, j);
      ZipLongestAt(a, fill, i, j);
    }
  }

  /** A row of a three-way zip, written out. */
  lemma ZipRow3<T>(a: seq<seq<T>>, i: int)
    requires |a| == 3 && 0 <= i < |Zip(a)|
    ensures i < |a[0]| && i < |a[1]| && i < |a[2]|
    ensures Zip(a)[i] == [a[0][i], a[1][i], a[2][i]]
  {
    ZipAt(a, i, 0);
    ZipAt(a, i, 1);
    ZipAt(a, i, 2);
  }

  /** A row of a three-way zip_longest, written out. */
  lemma ZipLongestRow3<T>(a: seq<seq<T>>, fill: T, i: int)
    requires |a| == 3 && 0 <= i < |ZipLongest(a, fill)|
    ensures ZipLongest(a, fill)[i]
            == [if i < |a[0]| then a[0][i] else fill,
                if i < |a[1]| then a[1][i] else fill,
                if i < |a[2]| then a[2][i] else fill]
  {
    ZipLongestAt(a, fill, i, 0);
    ZipLongestAt(a, fill, i, 1);
    ZipLongestAt(a, fill, i, 2);
  }

  /** A three-way zip whose shortest input has four elements, written out. */
  lemma Zip3Rows4<T>(a: seq<seq<T>>)
    requires |a| == 3 && MinLen(a) == 4
    ensures Zip(a) == [[a[0][0], a[1][0], a[2][0]], [a[0][1], a[1][1], a[2][1]],
                       [a[0][2], a[1][2], a[2][2]], [a[0][3], a[1][3], a[2][3]]]
  {
    ZipLength(a);
    ZipRow3(a, 0);
    ZipRow3(a, 1);
    ZipRow3(a, 2);
    ZipRow3(a, 3);
    SeqOfFour(Zip(a), [a[0][0], a[1][0], a[2][0]], [a[0][1], a[1][1], a[2][1]],
              [a[0][2], a[1][2], a[2][2]], [a[0][3], a[1][3], a[2][3]]);
  }

  /** A sequence is its prefix followed by the rest. */
  lemma SeqSplit<T>(z: seq<T>, k: nat)
    requires k <= |z|
    ensures z == z[..k] + z[k..]
  {
  }

  /** A four-element sequence is the display of its elements. */
  lemma SeqOfFour<T>(z: seq<T>, x0: T, x1: T, x2: T, x3: T)
    requires |z| == 4 && z[0] == x0 && z[1] == x1 && z[2] == x2 && z[3] == x3
    ensures z == [x0, x1, x2, x3]
  {
  }

  // As for group_by, the zip examples name their inputs through a predicate
  // so that Zip and ZipLongest are unfolded only row by row, through ZipRow3
  // and ZipLongestRow3; the nine-row results are proved in two halves
  // (the ...Head and ...Tail lemmas) to keep each proof small.

  /** The inputs of the zip examples of the stream tests: the stream
      [4, 1, 2, 3], range(9) and range(2, 9). */
  predicate ZipTestInputs(s: seq<int>, r: seq<int>, q: seq<int>)
  {
    s == [4, 1, 2, 3] && r == [0, 1, 2, 3, 4, 5, 6, 7, 8] && q == [2, 3, 4, 5, 6, 7, 8]
  }

  /** The zip examples of the stream tests, the stream first and then last. */
  lemma ZipAfterExample(s: seq<int>, r: seq<int>, q: seq<int>)
    requires ZipTestInputs(s, r, q)
    ensures StreamZip(s, [r, q], true) == [[4, 0, 2], [1, 1, 3], [2, 2, 4], [3, 3, 5]]
  {
    var a := Arrange(s, [r, q], true);
    assert a == [s, r, q];
    var j :| 0 <= j < 3 && MinLen(a) == |a[j]|;
    assert MinLen(a) <= |a[0]|;
    Zip3Rows4(a);
  }

  lemma ZipBeforeExample(s: seq<int>, r: seq<int>, q: seq<int>)
    requires ZipTestInputs(s, r, q)
    ensures StreamZip(s, [r, q], false) == [[0, 2, 4], [1, 3, 1], [2, 4, 2], [3, 5, 3]]
  {
    var a := Arrange(s, [r, q], false);
    assert a == [r, q, s];
    var j :| 0 <= j < 3 && MinLen(a) == |a[j]|;
    assert MinLen(a) <= |a[2]|;
    Zip3Rows4(a);
  }

  /** The zip_longest example of the stream tests, with `after` true: the
      stream is exhausted after four rows and range(2, 9) after seven. */
  lemma ZipLongestExample(s: seq<int>, r: seq<int>, q: seq<int>)
    requires ZipTestInputs(s, r, q)
    ensures StreamZipLongest(s, [r, q], true, -1)
            == [[4, 0, 2], [1, 1, 3], [2, 2, 4], [3, 3, 5], [-1, 4, 6],
                [-1, 5, 7], [-1, 6, 8], [-1, 7, -1], [-1, 8, -1]]
  {
    var a := Arrange(s, [r, q], true);
    assert a == [s, r, q];
    ZipLongestLength(a, -1);
    var j :| 0 <= j < 3 && MaxLen(a) == |a[j]|;
    assert |a[1]| <= MaxLen(a);
    ZipLongestExampleRows(a);
  }

  /** The nine rows of the zip_longest example, once its length is known. */
  lemma ZipLongestExampleRows(a: seq<seq<int>>)
    requires |a| == 3 && ZipTestInputs(a[0], a[1], a[2]) && |ZipLongest(a, -1)| == 9
    ensures ZipLongest(a, -1)
            == [[4, 0, 2], [1, 1, 3], [2, 2, 4], [3, 3, 5], [-1, 4, 6],
                [-1, 5, 7], [-1, 6, 8], [-1, 7, -1], [-1, 8, -1]]
  {
    var z := ZipLongest(a, -1);
    ZipLongestExampleHead(a);
    ZipLongestExampleTail(a);
    SeqSplit(z, 5);
    assert [[4, 0, 2], [1, 1, 3], [2, 2, 4], [3, 3, 5], [-1, 4, 6]]
           + [[-1, 5, 7], [-1, 6, 8], [-1, 7, -1], [-1, 8, -1]]
           == [[4, 0, 2], [1, 1, 3], [2, 2, 4], [3, 3, 5], [-1, 4, 6],
               [-1, 5, 7], [-1, 6, 8], [-1, 7, -1], [-1, 8, -1]];
  }

  /** Rows 0 to 4 of the zip_longest example: the stream runs out after row 3. */
  lemma ZipLongestExampleHead(a: seq<seq<int>>)
    requires |a| == 3 && ZipTestInputs(a[0], a[1], a[2]) && |ZipLongest(a, -1)| == 9
    ensures ZipLongest(a, -1)[..5] == [[4, 0, 2], [1, 1, 3], [2, 2, 4], [3, 3, 5], [-1, 4, 6]]
  {
    ZipLongestRow3(a, -1, 0);
    ZipLongestRow3(a, -1, 1);
    ZipLongestRow3(a, -1, 2);
    ZipLongestRow3(a, -1, 3);
    ZipLongestRow3(a, -1, 4);
  }

  /** Rows 5 to 8 of the zip_longest example: range(2, 9) runs out after row 6. */
  lemma ZipLongestExampleTail(a: seq<seq<int>>)
    requires |a| == 3 && ZipTestInputs(a[0], a[1], a[2]) && |ZipLongest(a, -1)| == 9
    ensures ZipLongest(a, -1)[5..] == [[-1, 5, 7], [-1, 6, 8], [-1, 7, -1], [-1, 8, -1]]
  {
    ZipLongestRow3(a, -1, 5);
    ZipLongestRow3(a, -1, 6);
    ZipLongestRow3(a, -1, 7);
    ZipLongestRow3(a, -1, 8);
  }

  /** The inputs of the last zip_longest example, with None as `Empty`. */
  predicate ZipNoneTestInputs(s: seq<Optional<int>>, r: seq<Optional<int>>, q: seq<Optional<int>>)
  {
    && s == [Of(4), Of(1), Of(2), Of(3)]
    && r == [Of(0), Of(1), Of(2), Of(3), Of(4), Of(5), Of(6), Of(7), Of(8)]
    && q == [Of(2), Of(3), Of(4), Of(5), Of(6), Of(7), Of(8)]
  }

  /** The zip_longest example of the stream tests with `after` false and a
      None fill value: the stream's element comes last in every row. */
  lemma ZipLongestBeforeExample(s: seq<Optional<int>>, r: seq<Optional<int>>, q: seq<Optional<int>>)
    requires ZipNoneTestInputs(s, r, q)
    ensures StreamZipLongest(s, [r, q], false, Empty)
            == [[Of(0), Of(2), Of(4)], [Of(1), Of(3), Of(1)], [Of(2), Of(4), Of(2)], [Of(3), Of(5), Of(3)], [Of(4), Of(6), Empty], [Of(5), Of(7), Empty], [Of(6), Of(8), Empty], [Of(7), Empty, Empty], [Of(8), Empty, Empty]]
  {
    var a := Arrange(s, [r, q], false);
    assert a == [r, q, s];
    ZipLongestLength(a, Empty);
    var j :| 0 <= j < 3 && MaxLen(a) == |a[j]|;
    assert |a[0]| <= MaxLen(a);
    ZipLongestBeforeExampleRows(a);
  }

  /** The nine rows of that example, once its length is known. */
  lemma ZipLongestBeforeExampleRows(a: seq<seq<Optional<int>>>)
    requires |a| == 3 && ZipNoneTestInputs(a[2], a[0], a[1]) && |ZipLongest(a, Empty)| == 9
    ensures ZipLongest(a, Empty) == [[Of(0), Of(2), Of(4)], [Of(1), Of(3), Of(1)], [Of(2), Of(4), Of(2)], [Of(3), Of(5), Of(3)], [Of(4), Of(6), Empty], [Of(5), Of(7), Empty], [Of(6), Of(8), Empty], [Of(7), Empty, Empty], [Of(8), Empty, Empty]]
  {
    var z := ZipLongest(a, Empty);
    ZipLongestBeforeExampleHead(a);
    ZipLongestBeforeExampleTail(a);
    SeqSplit(z, 5);
    assert [[Of(0), Of(2), Of(4)], [Of(1), Of(3), Of(1)], [Of(2), Of(4), Of(2)], [Of(3), Of(5), Of(3)], [Of(4), Of(6), Empty]]
           + [[Of(5), Of(7), Empty], [Of(6), Of(8), Empty], [Of(7), Empty, Empty], [Of(8), Empty, Empty]]
           == [[Of(0), Of(2), Of(4)], [Of(1), Of(3), Of(1)], [Of(2), Of(4), Of(2)], [Of(3), Of(5), Of(3)], [Of(4), Of(6), Empty],
               [Of(5), Of(7), Empty], [Of(6), Of(8), Empty], [Of(7), Empty, Empty], [Of(8), Empty, Empty]];
  }

  lemma ZipLongestBeforeExampleHead(a: seq<seq<Optional<int>>>)
    requires |a| == 3 && ZipNoneTestInputs(a[2], a[0], a[1]) && |ZipLongest(a, Empty)| == 9
    ensures ZipLongest(a, Empty)[..5]
            == [[Of(0), Of(2), Of(4)], [Of(1), Of(3), Of(1)], [Of(2), Of(4), Of(2)], [Of(3), Of(5), Of(3)], [Of(4), Of(6), Empty]]
  {
    ZipLongestRow3(a, Empty, 0);
    ZipLongestRow3(a, Empty, 1);
    ZipLongestRow3(a, Empty, 2);
    ZipLongestRow3(a, Empty, 3);
    ZipLongestRow3(a, Empty, 4);
  }

  lemma ZipLongestBeforeExampleTail(a: seq<seq<Optional<int>>>)
    requires |a| == 3 && ZipNoneTestInputs(a[2], a[0], a[1]) && |ZipLongest(a, Empty)| == 9
    ensures ZipLongest(a, Empty)[5..]
            == [[Of(5), Of(7), Empty], [Of(6), Of(8), Empty], [Of(7), Empty, Empty], [Of(8), Empty, Empty]]
  {
    ZipLongestRow3(a, Empty, 5);
    ZipLongestRow3(a, Empty, 6);
    ZipLongestRow3(a, Empty, 7);
    ZipLongestRow3(a, Empty, 8);
  }

  // ---------------------------------------------------------------------
  // cycle

  /** The pair of a stream element and a cycled element, ordered by `after`
      as in zip. */
  function Pair<T>(x: T, y: T, after: bool): Row<T>
  {
    if after then [x, y] else [y, x]
  }

  /** Pairs the elements of `s` with `other[j]`, `other[j + 1]`, ..., going
      back to the start of `other` each time it is exhausted. */
  function CycleFrom<T>(s: seq<T>, other: seq<T>, j: nat, after: bool): (r: seq<Row<T>>)
    requires j < |other|
    ensures |r| == |s|
  {
    if s == [] then []
    else [Pair(s[0], other[j], after)] + CycleFrom(s[1..], other, if j + 1 == |other| then 0 else j + 1, after)
  }

  /** Stream.cycle(other, after): the stream's length decides; an empty
      `other` yields nothing, as zipping with an empty cycle does. */
  function StreamCycle<T>(s: seq<T>, other: seq<T>, after: bool): (r: seq<Row<T>>)
    ensures |r| == if other == [] then 0 else |s|
  {
    if other == [] then [] else CycleFrom(s, other, 0, after)
  }

  /** The position in `other` starts at j mod |other| = j, and moving on to
      the next element, wrapping at the end, keeps it at (j + steps) mod |other|. */
  lemma CycleIndexStep(j: int, i: int, n: int)
    requires 0 <= j < n && i >= 1
    ensures j % n == j
    ensures ((if j + 1 == n then 0 else j + 1) + (i - 1)) % n == (j + i) % n
  {
    if j + 1 == n {
      ModShift(j + i, n);
    }
  }

  lemma {:induction false} CycleFromAt<T>(s: seq<T>, other: seq<T>, j: nat, after: bool, i: int)
    requires j < |other| && 0 <= i < |s|
    ensures CycleFrom(s, other, j, after)[i] == Pair(s[i], other[(j + i) % |other|], after)
    decreases i
  {
    if i == 0 {
      CycleIndexStep(j, 1, |other|);
    } else {
      var j' := if j + 1 == |other| then 0 else j + 1;
      CycleFromAt(s[1..], other, j', after, i - 1);
      CycleIndexStep(j, i, |other|);
      assert CycleFrom(s, other, j, after)[i] == CycleFrom(s[1..], other, j', after)[i - 1];
    }
  }

  /** Exactly one row per stream element; row `i` pairs s[i] with
      other[i mod |other|]. */
  lemma CycleShape<T>(s: seq<T>, other: seq<T>, after: bool)
    requires other != []
    ensures |StreamCycle(s, other, after)| == |s|
    ensures forall i :: 0 <= i < |s| ==>
              StreamCycle(s, other, after)[i] == Pair(s[i], other[i % |other|], after)
  {
    var c := CycleFrom(s, other, 0, after);
    assert StreamCycle(s, other, after) == c;
    forall i | 0 <= i < |s| ensures c[i] == Pair(s[i], other[i % |other|], after) {
      CycleFromAt(s, other, 0, after, i);
      assert (0 + i) % |other| == i % |other|;
    }
  }

  lemma CycleExamples()
    ensures StreamCycle([4, 1, 2, 3, 9, 0, 5], [0, 1, 2], true)
            == [[4, 0], [1, 1], [2, 2], [3, 0], [9, 1], [0, 2], [5, 0]]
    ensures StreamCycle([4, 1, 2, 3, 9, 0, 5], [0, 1, 2], false)
            == [[0, 4], [1, 1], [2, 2], [0, 3], [1, 9], [2, 0], [0, 5]]
  {
    CycleShape([4, 1, 2, 3, 9, 0, 5], [0, 1, 2], true);
    CycleShape([4, 1, 2, 3, 9, 0, 5], [0, 1, 2], false);
  }

  // ---------------------------------------------------------------------
  // if_else and conditional

  /** Stream.if_else(predicate, if_, else_): the two-way rule on every element. */
  function IfElseMap<T>(s: seq<T>, cond: T -> bool, ifFunc: T -> T, elseFunc: T -> T): (r: seq<T>)
    ensures |r| == |s|
    ensures forall i :: 0 <= i < |s| ==> r[i] == if cond(s[i]) then ifFunc(s[i]) else elseFunc(s[i])
  {
    Map((x: T) => if cond(x) then ifFunc(x) else elseFunc(x), s)
  }

  /** Stream.conditional(c): `c.apply` on every element, which fails on the
      first element when `c` is still open. */
  function ConditionalMap<T>(s: seq<T>, conditions: seq<Branch<T>>, closed: bool): (r: Result<seq<T>>)
    ensures r.Err? <==> !closed && s != []
    ensures r.Err? ==> r.error == PipelineNotClosed
    ensures r.Ok? ==> |r.value| == |s|
    ensures r.Ok? ==> forall i :: 0 <= i < |s| ==> r.value[i] == Dispatch(conditions, s[i])
  {
    if !closed && s != [] then Err(PipelineNotClosed)
    else Ok(Map((x: T) => Dispatch(conditions, x), s))
  }

  /** The stream's if_else is conditional with the condition that
      ChainedCondition.if_else builds. */
  lemma IfElseIsConditional<T>(s: seq<T>, cond: T -> bool, ifFunc: T -> T, elseFunc: T -> T)
    ensures ConditionalMap(s, [Branch(cond, ifFunc), Branch(AlwaysTrue, elseFunc)], true)
            == Ok(IfElseMap(s, cond, ifFunc, elseFunc))
  {
    var bs := [Branch(cond, ifFunc), Branch(AlwaysTrue, elseFunc)];
    var r := ConditionalMap(s, bs, true);
    var expected := IfElseMap(s, cond, ifFunc, elseFunc);
    forall i | 0 <= i < |s| ensures r.value[i] == expected[i] {
      IfElseDispatch(cond, ifFunc, elseFunc, s[i]);
    }
    assert r.value == expected;
  }

  /** Stream.conditional(c) applied through the condition object: one
      `apply` call per element, in order, the first failure ending it. */
  method Conditional<T>(s: seq<T>, c: ChainedCondition<T>) returns (r: Result<seq<T>>)
    ensures r == ConditionalMap(s, c.conditions, c.closed)
  {
    var out: seq<T> := [];
    var i := 0;
    while i < |s|
      invariant 0 <= i <= |s|
      invariant c.closed || i == 0
      invariant |out| == i && forall k :: 0 <= k < i ==> out[k] == Dispatch(c.conditions, s[k])
    {
      var y := c.Apply(s[i]);
      if y.Err? {
        return Err(y.error);
      }
      out := out + [y.value];
      i := i + 1;
    }
    assert out == ConditionalMap(s, c.conditions, c.closed).value;
    r := Ok(out);
  }

  // ---------------------------------------------------------------------
  // The counting oracles of the stream tests

  /** The tests' oracle: a counter per key, incremented once per occurrence. */
  method CountOccurrences<K(==)>(ks: seq<K>) returns (counts: map<K, int>)
    ensures forall k :: k in counts <==> k in ks
    ensures forall k :: k in counts ==> counts[k] == multiset(ks)[k]
  {
    counts := map[];
    var i := 0;
    while i < |ks|
      invariant 0 <= i <= |ks|
      invariant forall k :: k in counts <==> k in ks[..i]
      invariant forall k :: k in counts ==> counts[k] == multiset(ks[..i])[k]
    {
      var k := ks[i];
      assert ks[..i + 1] == ks[..i] + [k];
      counts := counts[k := if k in counts then counts[k] + 1 else 1];
      i := i + 1;
    }
    assert ks[..i] == ks;
  }

  /** `mapping(identity, lambda _: 1, +)` counts the occurrences of each value. */
  lemma {:induction false} MappingCounts<K>(ks: seq<K>)
    ensures forall k :: k in Mapping(ks, Identity, One, Plus) <==> k in ks
    ensures forall k :: k in Mapping(ks, Identity, One, Plus) ==>
              Mapping(ks, Identity, One, Plus)[k] == multiset(ks)[k]
  {
    if ks != [] {
      var init, x := ks[..|ks| - 1], ks[|ks| - 1];
      assert ks == init + [x];
      MappingCounts(init);
      MappingSnoc(init, x, Identity, One, Plus);
    }
  }

  function AtMost10(x: int): bool { x <= 10 }
  function AtMost20(x: int): bool { x <= 20 }
  function AtMost30(x: int): bool { x <= 30 }
  function Ten(x: int): int { 10 }
  function Twenty(x: int): int { 20 }
  function Thirty(x: int): int { 30 }
  function MinusOne(x: int): int { -1 }
  function Below50(x: int): bool { x < 50 }
  function Zero(x: int): int { 0 }
  function OneOf(x: int): int { 1 }

  /** The branches of the ChainedCondition of the conditional tests. */
  function ConditionalTestBranches(): seq<Branch<int>>
  {
    [Branch(AtMost10, Ten), Branch(AtMost20, Twenty), Branch(AtMost30, Thirty)]
  }

  /** The if/elif chain the tests compare against, with `fallback` as the
      final else (the element itself after `done`, -1 after `otherwise`). */
  function ExpectedClass(e: int, fallback: int): int
  {
    if e <= 10 then 10 else if e <= 20 then 20 else if e <= 30 then 30 else fallback
  }

  lemma ConditionalTestDispatch(e: int)
    ensures Dispatch(ConditionalTestBranches(), e) == ExpectedClass(e, e)
    ensures Dispatch(ConditionalTestBranches() + [Branch(AlwaysTrue, MinusOne)], e) == ExpectedClass(e, -1)
  {
    var bs := ConditionalTestBranches();
    assert bs[1..] == [Branch(AtMost20, Twenty), Branch(AtMost30, Thirty)];
    assert bs[1..][1..] == [Branch(AtMost30, Thirty)];
    assert bs[1..][1..][1..] == [];
    DispatchAppend(bs, [Branch(AlwaysTrue, MinusOne)], e);
    if AnyMatch(bs, e) {
      var j :| 0 <= j < |bs| && bs[j].cond(e);
      assert e <= 30;
    } else {
      assert [Branch(AlwaysTrue, MinusOne)][1..] == [];
    }
  }

  /** Any map that counts occurrences as the oracle does is the result of
      `mapping(identity, lambda _: 1, +)`. */
  lemma CountsAgree(ks: seq<int>, counts: map<int, int>)
    requires forall k :: k in counts <==> k in ks
    requires forall k :: k in counts ==> counts[k] == multiset(ks)[k]
    ensures Mapping(ks, Identity, One, Plus) == counts
  {
    MappingCounts(ks);
    var m := Mapping(ks, Identity, One, Plus);
    assert forall k :: k in m <==> k in counts;
    assert forall k :: k in m ==> m[k] == counts[k];
  }

  /** The rule of test_if_else: 0 below 50, 1 otherwise. */
  function Below50Class(x: int): int { if x < 50 then 0 else 1 }

  /** The expected classes of test_conditional1 (closed by `done`). */
  function DoneClass(x: int): int { ExpectedClass(x, x) }

  /** The expected classes of test_conditional2 (closed by `otherwise`). */
  function OtherwiseClass(x: int): int { ExpectedClass(x, -1) }

  /** test_if_else: for any run of the supplier, the counts of the if_else
      results equal the oracle's counts. */
  method IfElseTest(xs: seq<int>) returns (out: map<int, int>, target: map<int, int>)
    ensures out == Mapping(IfElseMap(xs, Below50, Zero, OneOf), Identity, One, Plus)
    ensures forall k :: k in target <==> k in Map(Below50Class, xs)
    ensures forall k :: k in target ==> target[k] == multiset(Map(Below50Class, xs))[k]
    ensures out == target
  {
    var ys := IfElseMap(xs, Below50, Zero, OneOf);
    out := Mapping(ys, Identity, One, Plus);
    var expected := Map(Below50Class, xs);
    target := CountOccurrences(expected);
    assert forall i :: 0 <= i < |xs| ==> ys[i] == expected[i];
    assert ys == expected;
    CountsAgree(ys, target);
  }

  /** test_conditional1 and test_conditional2: the condition is built with
      the builder, closed by `done` or by `otherwise(lambda x: -1)`, and the
      counts of the results equal the oracle's. */
  method ConditionalTest(xs: seq<int>, useOtherwise: bool) returns (out: Result<map<int, int>>, target: map<int, int>)
    ensures var branches := ConditionalTestBranches() + (if useOtherwise then [Branch(AlwaysTrue, MinusOne)] else []);
            out == Ok(Mapping(ConditionalMap(xs, branches, true).value, Identity, One, Plus))
    ensures forall k :: k in target <==> k in Map(if useOtherwise then OtherwiseClass else DoneClass, xs)
    ensures forall k :: k in target ==>
              target[k] == multiset(Map(if useOtherwise then OtherwiseClass else DoneClass, xs))[k]
    ensures out == Ok(target)
  {
    var c := new ChainedCondition(Empty);
    var r1 := c.IfThen(AtMost10, Ten);
    var r2 := c.IfThen(AtMost20, Twenty);
    var r3 := c.IfThen(AtMost30, Thirty);
    assert c.conditions == ConditionalTestBranches();
    var branches := ConditionalTestBranches() + (if useOtherwise then [Branch(AlwaysTrue, MinusOne)] else []);
    var expected: seq<int>;
    if useOtherwise {
      var r4 := c.Otherwise(MinusOne);
      expected := Map(OtherwiseClass, xs);
    } else {
      var r4 := c.Done();
      assert branches == ConditionalTestBranches();
      expected := Map(DoneClass, xs);
    }
    assert c.closed && c.conditions == branches;
    var ys := Conditional(xs, c);
    forall i | 0 <= i < |xs| ensures ys.value[i] == expected[i] {
      ConditionalTestDispatch(xs[i]);
    }
    assert ys.value == expected;
    target := CountOccurrences(expected);
    CountsAgree(ys.value, target);
    out := Ok(Mapping(ys.value, Identity, One, Plus));
  }
}
