/** The pure helpers of the utility module: chunking a sequence, extracting a
    file name from a path, filter-then-map, the attribute dictionary built for
    `constructor_setter`, and stepped day ranges. */
module Utils {
  import opened Common

  function Min(a: int, b: int): int { if a <= b then a else b }

  // ---------------------------------------------------------------------
  // divide_in_chunk

  /** Consecutive slices of `n` elements; the last may be shorter. */
  function Chunks<T>(s: seq<T>, n: nat): seq<seq<T>>
    requires n >= 1
    decreases |s|
  {
    if s == [] then []
    else if |s| <= n then [s]
    else [s[..n]] + Chunks(s[n..], n)
  }

  /** Concatenation of a sequence of sequences. */
  function Flatten<T>(ss: seq<seq<T>>): seq<T>
  {
    if ss == [] then [] else ss[0] + Flatten(ss[1..])
  }

  lemma FlattenAppend<T>(a: seq<seq<T>>, b: seq<seq<T>>)
    ensures Flatten(a + b) == Flatten(a) + Flatten(b)
  {
    if a != [] {
      assert (a + b)[1..] == a[1..] + b;
      FlattenAppend(a[1..], b);
    } else {
      assert a + b == b;
    }
  }

  /** Concatenating the chunks gives the input back. */
  lemma {:induction false} ChunksFlatten<T>(s: seq<T>, n: nat)
    requires n >= 1
    ensures Flatten(Chunks(s, n)) == s
    decreases |s|
  {
    if s != [] && |s| > n {
      ChunksFlatten(s[n..], n);
      assert s[..n] + s[n..] == s;
    }
  }

  /** There are ceil(|s| / n) chunks: enough to hold |s| elements, and one
      fewer would not be. */
  lemma {:induction false} ChunksCount<T>(s: seq<T>, n: nat)
    requires n >= 1
    ensures |Chunks(s, n)| == 0 <==> s == []
    ensures s != [] ==> (|Chunks(s, n)| - 1) * n < |s| <= |Chunks(s, n)| * n
    decreases |s|
  {
    if s != [] && |s| > n {
      var k := |Chunks(s[n..], n)|;
      ChunksCount(s[n..], n);
      assert (k + 1) * n == k * n + n;
      assert k * n == (k - 1) * n + n;
    }
  }

  lemma MulPred(i: int, n: int)
    ensures (i - 1) * n + n == i * n
  {
  }

  /** Slicing after dropping `n` elements is slicing `n` further on. */
  lemma SliceAfterDrop<T>(s: seq<T>, n: nat, lo: nat, hi: nat)
    requires n <= |s| && lo <= hi <= |s| - n
    ensures s[n..][lo..hi] == s[lo + n .. hi + n]
  {
  }

  /** Chunk `i` is the slice s[i*n : i*n + n], clamped at the end of `s`, and
      it starts inside `s`. */
  lemma {:induction false} ChunkAt<T>(s: seq<T>, n: nat, i: nat)
    requires n >= 1
    requires i < |Chunks(s, n)|
    ensures i * n < |s|
    ensures Chunks(s, n)[i] == s[i * n .. Min(i * n + n, |s|)]
    decreases |s|
  {
    if i > 0 {
      var t := s[n..];
      assert Chunks(s, n)[i] == Chunks(t, n)[i - 1];
      ChunkAt(t, n, i - 1);
      var k := (i - 1) * n;
      assert k + n == i * n by { MulPred(i, n); }
      SliceAfterDrop(s, n, k, Min(k + n, |t|));
    }
  }

  /** Every chunk but the last has exactly `n` elements; the last has
      between 1 and `n`. */
  lemma ChunkSizes<T>(s: seq<T>, n: nat)
    requires n >= 1
    ensures forall i :: 0 <= i < |Chunks(s, n)| - 1 ==> |Chunks(s, n)[i]| == n
    ensures Chunks(s, n) != [] ==> 1 <= |Chunks(s, n)[|Chunks(s, n)| - 1]| <= n
  {
    var r := Chunks(s, n);
    forall i | 0 <= i < |r| ensures (i < |r| - 1 ==> |r[i]| == n) && 1 <= |r[i]| <= n {
      ChunkAt(s, n, i);
      if i < |r| - 1 {
        ChunkAt(s, n, i + 1);
      }
    }
  }

  /** divide_in_chunk: the whole input as one chunk when it fits in one,
      otherwise the slices docs[i:i+chunkSize] for i in range(0, len, chunkSize).
      A zero step makes `range` raise; a negative step gives an empty range. */
  method DivideInChunk<T>(docs: seq<T>, chunkSize: int) returns (r: Result<seq<seq<T>>>)
    ensures |docs| <= chunkSize ==> r == Ok([docs])
    ensures chunkSize < |docs| && chunkSize == 0 ==> r == Err(ValueError)
    ensures chunkSize < |docs| && chunkSize < 0 ==> r == Ok([])
    ensures chunkSize < |docs| && chunkSize > 0 ==> r == Ok(Chunks(docs, chunkSize))
  {
    if |docs| <= chunkSize {
      return Ok([docs]);
    }
    if chunkSize == 0 {
      return Err(ValueError);
    }
    if chunkSize < 0 {
      return Ok([]);
    }
    var chunks: seq<seq<T>> := [];
    var i := 0;
    while i < |docs|
      invariant 0 <= i
      invariant chunks + Chunks(docs[Min(i, |docs|)..], chunkSize) == Chunks(docs, chunkSize)
      decreases |docs| - i
    {
      var rest := docs[i..];
      if |rest| <= chunkSize {
        assert docs[i .. Min(i + chunkSize, |docs|)] == rest;
        assert docs[Min(i + chunkSize, |docs|)..] == [];
      } else {
        assert rest[..chunkSize] == docs[i .. i + chunkSize];
        assert rest[chunkSize..] == docs[i + chunkSize..];
      }
      chunks := chunks + [docs[i .. Min(i + chunkSize, |docs|)]];
      i := i + chunkSize;
    }
    assert docs[Min(i, |docs|)..] == [];
    assert chunks + [] == chunks;
    r := Ok(chunks);
  }

  /** The example of the utility tests: range(2, 12) in chunks of three. */
  method DivideInChunkExample() returns (r: Result<seq<seq<int>>>)
    ensures r == Ok([[2, 3, 4], [5, 6, 7], [8, 9, 10], [11]])
  {
    var s := [2, 3, 4, 5, 6, 7, 8, 9, 10, 11];
    assert s[9..] == [11];
    assert Chunks(s[9..], 3) == [[11]];
    assert s[6..][3..] == s[9..] && s[6..][..3] == [8, 9, 10];
    assert Chunks(s[6..], 3) == [[8, 9, 10], [11]];
    assert s[3..][3..] == s[6..] && s[3..][..3] == [5, 6, 7];
    assert Chunks(s[3..], 3) == [[5, 6, 7], [8, 9, 10], [11]];
    assert s[..3] == [2, 3, 4];
    assert Chunks(s, 3) == [[2, 3, 4], [5, 6, 7], [8, 9, 10], [11]];
    r := DivideInChunk(s, 3);
  }

  // ---------------------------------------------------------------------
  // get_file_name

  /** Python's `str.split(sep)`: the pieces between occurrences of `sep`. */
  function Split(s: string, sep: char): (r: seq<string>)
    ensures |r| >= 1
    ensures forall i :: 0 <= i < |r| ==> sep !in r[i]
  {
    if s == [] then [[]]
    else
      var rest := Split(s[1..], sep);
      if s[0] == sep then [[]] + rest
      else [[s[0]] + rest[0]] + rest[1..]
  }

  /** `split` gives one more piece than there are separators. */
  lemma {:induction false} SplitCount(s: string, sep: char)
    ensures |Split(s, sep)| == multiset(s)[sep] + 1
  {
    if s != [] {
      SplitCount(s[1..], sep);
      assert s == [s[0]] + s[1..];
    }
  }

  /** Python's `sep.join(pieces)`. */
  function Join(pieces: seq<string>, sep: char): string
    requires |pieces| >= 1
  {
    if |pieces| == 1 then pieces[0] else pieces[0] + [sep] + Join(pieces[1..], sep)
  }

  /** One step of `Split`: the first character either ends the first piece
      or joins it. */
  lemma SplitCons(c: char, t: string, sep: char)
    ensures Split([c] + t, sep)
            == if c == sep then [[]] + Split(t, sep)
               else [[c] + Split(t, sep)[0]] + Split(t, sep)[1..]
  {
    assert ([c] + t)[1..] == t;
  }

  /** Splitting and joining again restores the text. */
  lemma {:induction false} SplitJoin(s: string, sep: char)
    ensures Join(Split(s, sep), sep) == s
  {
    if s != [] {
      var rest := Split(s[1..], sep);
      SplitJoin(s[1..], sep);
      SplitCons(s[0], s[1..], sep);
      assert s == [s[0]] + s[1..];
      if s[0] == sep {
        assert Join([[]] + rest, sep) == [sep] + Join(rest, sep);
      } else {
        JoinFirst([s[0]], rest, sep);
      }
    }
  }

  /** Text put before the first piece comes first in the join. */
  lemma JoinFirst(x: string, pieces: seq<string>, sep: char)
    requires |pieces| >= 1
    ensures Join([x + pieces[0]] + pieces[1..], sep) == x + Join(pieces, sep)
  {
    var q := [x + pieces[0]] + pieces[1..];
    assert q[1..] == pieces[1..];
  }

  /** A separator-free prefix joins the first piece of what follows it. */
  lemma {:induction false} SplitPrefix(p: string, rest: string, sep: char)
    requires sep !in p
    ensures Split(p + rest, sep) == [p + Split(rest, sep)[0]] + Split(rest, sep)[1..]
  {
    var x := Split(rest, sep);
    if p == [] {
      assert p + rest == rest && p + x[0] == x[0];
      assert [x[0]] + x[1..] == x;
    } else {
      var tail := p[1..];
      assert p + rest == [p[0]] + (tail + rest);
      assert sep !in tail by {
        assert forall k :: 0 <= k < |tail| ==> tail[k] == p[k + 1];
      }
      SplitPrefix(tail, rest, sep);
      SplitCons(p[0], tail + rest, sep);
      assert [p[0]] + (tail + x[0]) == p + x[0];
    }
  }

  /** Joining separator-free pieces and splitting again restores the pieces. */
  lemma {:induction false} JoinSplit(pieces: seq<string>, sep: char)
    requires |pieces| >= 1
    requires forall i :: 0 <= i < |pieces| ==> sep !in pieces[i]
    ensures Split(Join(pieces, sep), sep) == pieces
  {
    var p := pieces[0];
    if |pieces| == 1 {
      SplitPrefix(p, [], sep);
      assert p + [] == p;
    } else {
      var rest := [sep] + Join(pieces[1..], sep);
      assert Join(pieces, sep) == p + rest;
      SplitPrefix(p, rest, sep);
      JoinSplit(pieces[1..], sep);
      assert rest[1..] == Join(pieces[1..], sep);
      assert Split(rest, sep) == [[]] + pieces[1..];
      assert p + [] == p;
    }
  }

  /** Python list indexing, negative positions counting from the end. */
  function PyIndex<T>(xs: seq<T>, at: int): (r: Result<T>)
    ensures r.Ok? <==> -|xs| <= at < |xs|
    ensures r.Ok? ==> r.value == xs[if at < 0 then |xs| + at else at]
    ensures r.Err? ==> r.error == IndexError
  {
    if 0 <= at < |xs| then Ok(xs[at])
    else if -|xs| <= at < 0 then Ok(xs[|xs| + at])
    else Err(IndexError)
  }

  /** get_file_name: the `at`-th '/'-separated piece of the path, up to its
      first '.'. */
  function GetFileName(fileName: string, at: int): (r: Result<string>)
    ensures r.Ok? <==> -(multiset(fileName)['/'] + 1) <= at <= multiset(fileName)['/']
    ensures r.Ok? ==> '/' !in r.value && '.' !in r.value
    ensures r.Ok? ==> PyIndex(Split(fileName, '/'), at).Ok?
    ensures r.Ok? && PyIndex(Split(fileName, '/'), at).Ok? ==>
              var piece := PyIndex(Split(fileName, '/'), at).value;
              r.value <= piece && (|r.value| == |piece| || piece[|r.value|] == '.')
    ensures r.Err? ==> r.error == IndexError
  {
    SplitCount(fileName, '/');
    match PyIndex(Split(fileName, '/'), at)
    case Ok(piece) =>
      SplitFirstIsPrefix(piece, '.');
      Ok(Split(piece, '.')[0])
    case Err(e) => Err(e)
  }

  /** The text before the first '.' is a prefix of the piece, followed in the
      piece by a '.' or by nothing. */
  lemma {:induction false} SplitFirstIsPrefix(s: string, sep: char)
    ensures var f := Split(s, sep)[0];
            f <= s && (|f| == |s| || s[|f|] == sep)
  {
    if s != [] {
      SplitFirstIsPrefix(s[1..], sep);
    }
  }

  lemma SplitPathExample()
    ensures Split("a/b/c/d.text", '/') == ["a", "b", "c", "d.text"]
  {
    var pieces := ["a", "b", "c", "d.text"];
    assert Join(pieces[3..], '/') == "d.text";
    assert Join(pieces[2..], '/') == "c/d.text";
    assert Join(pieces[1..], '/') == "b/c/d.text";
    assert Join(pieces, '/') == "a/b/c/d.text";
    JoinSplit(pieces, '/');
  }

  /** A one-character string other than the separator is a single piece. */
  lemma SplitSingle(c: char, sep: char)
    requires c != sep
    ensures Split([c], sep) == [[c]]
  {
    assert [c][1..] == [];
    assert Split([], sep) == [[]];
    assert [c] + [] == [c];
  }

  lemma SplitNameExample()
    ensures Split("d.text", '.') == ["d", "text"]
  {
    var parts := ["d", "text"];
    assert Join(parts[1..], '.') == "text";
    assert Join(parts, '.') == "d.text";
    JoinSplit(parts, '.');
  }

  /** The examples of the utility tests, and an index past the last piece. */
  lemma GetFileNameExamples()
    ensures GetFileName("a/b/c/d.text", -1) == Ok("d")
    ensures GetFileName("a/b/c/d.text", -2) == Ok("c")
    ensures GetFileName("a/b/c/d.text", 0) == Ok("a")
    ensures GetFileName("a/b/c/d.text", 4) == Err(IndexError)
  {
    SplitPathExample();
    SplitNameExample();
    SplitSingle('c', '.');
    SplitSingle('a', '.');
    var pieces := Split("a/b/c/d.text", '/');
    assert PyIndex(pieces, -1) == Ok("d.text");
    assert PyIndex(pieces, -2) == Ok("c");
    assert PyIndex(pieces, 0) == Ok("a");
    assert PyIndex(pieces, 4) == Err(IndexError);
  }

  // ---------------------------------------------------------------------
  // filter_transform

  function Filter<T>(cond: T -> bool, s: seq<T>): (r: seq<T>)
    ensures |r| <= |s|
  {
    if s == [] then []
    else if cond(s[0]) then [s[0]] + Filter(cond, s[1..])
    else Filter(cond, s[1..])
  }

  function Map<T, U>(f: T -> U, s: seq<T>): (r: seq<U>)
    ensures |r| == |s|
    ensures forall i :: 0 <= i < |s| ==> r[i] == f(s[i])
  {
    if s == [] then [] else [f(s[0])] + Map(f, s[1..])
  }

  /** filter_transform: `transform` mapped over the elements meeting `condition`. */
  function FilterTransform<T, U>(s: seq<T>, condition: T -> bool, transform: T -> U): (r: seq<U>)
    ensures |r| <= |s|
  {
    Map(transform, Filter(condition, s))
  }

  /** filter_transform works element by element in source order: the result
      for a concatenation is the concatenation of the results. */
  lemma {:induction false} FilterTransformAppend<T, U>(a: seq<T>, b: seq<T>, condition: T -> bool, transform: T -> U)
    ensures FilterTransform(a + b, condition, transform)
            == FilterTransform(a, condition, transform) + FilterTransform(b, condition, transform)
  {
    FilterAppend(condition, a, b);
    MapAppend(transform, Filter(condition, a), Filter(condition, b));
  }

  lemma {:induction false} FilterAppend<T>(cond: T -> bool, a: seq<T>, b: seq<T>)
    ensures Filter(cond, a + b) == Filter(cond, a) + Filter(cond, b)
  {
    if a == [] {
      assert a + b == b;
    } else {
      assert (a + b)[0] == a[0];
      assert (a + b)[1..] == a[1..] + b;
      FilterAppend(cond, a[1..], b);
    }
  }

  lemma MapAppend<T, U>(f: T -> U, a: seq<T>, b: seq<T>)
    ensures Map(f, a + b) == Map(f, a) + Map(f, b)
  {
  }

  /** A one-element source is kept, transformed, exactly when it meets the
      condition. */
  lemma FilterTransformSingle<T, U>(x: T, condition: T -> bool, transform: T -> U)
    ensures FilterTransform([x], condition, transform)
            == if condition(x) then [transform(x)] else []
  {
    assert [x][1..] == [];
    assert Filter(condition, [x]) == if condition(x) then [x] else [];
  }

  /** The result holds exactly the transforms of the elements meeting the
      condition. */
  lemma {:induction false} FilterTransformMembers<T, U>(s: seq<T>, condition: T -> bool, transform: T -> U, y: U)
    ensures y in FilterTransform(s, condition, transform)
            <==> exists i :: 0 <= i < |s| && condition(s[i]) && y == transform(s[i])
  {
    if s != [] {
      FilterTransformMembers(s[1..], condition, transform, y);
      assert s == [s[0]] + s[1..];
      FilterTransformAppend([s[0]], s[1..], condition, transform);
      FilterTransformSingle(s[0], condition, transform);
      if exists i :: 0 <= i < |s| && condition(s[i]) && y == transform(s[i]) {
        var i :| 0 <= i < |s| && condition(s[i]) && y == transform(s[i]);
        if i > 0 { assert s[1..][i - 1] == s[i]; }
      }
      if exists i :: 0 <= i < |s[1..]| && condition(s[1..][i]) && y == transform(s[1..][i]) {
        var i :| 0 <= i < |s[1..]| && condition(s[1..][i]) && y == transform(s[1..][i]);
        assert s[i + 1] == s[1..][i];
      }
    }
  }

  /** The condition and transform of the utility tests' example: Python's
      `x % 2` is truthy exactly for odd x. */
  function Odd(x: int): bool { x % 2 != 0 }
  function Succ(x: int): int { x + 1 }

  lemma FilterOddLow()
    ensures Filter(Odd, [0, 1, 2, 3, 4]) == [1, 3]
  {
    var s := [0, 1, 2, 3, 4];
    assert Filter(Odd, s[4..]) == [];
    assert Filter(Odd, s[3..]) == [3];
    assert Filter(Odd, s[2..]) == [3];
    assert Filter(Odd, s[1..]) == [1, 3];
  }

  lemma FilterOddHigh()
    ensures Filter(Odd, [5, 6, 7, 8, 9]) == [5, 7, 9]
  {
    var s := [5, 6, 7, 8, 9];
    assert Filter(Odd, s[4..]) == [9];
    assert Filter(Odd, s[3..]) == [9];
    assert Filter(Odd, s[2..]) == [7, 9];
    assert Filter(Odd, s[1..]) == [7, 9];
  }

  /** The example of the utility tests: odd numbers below ten, plus one. */
  lemma FilterTransformExample()
    ensures FilterTransform([0, 1, 2, 3, 4, 5, 6, 7, 8, 9], Odd, Succ) == [2, 4, 6, 8, 10]
  {
    var lo, hi := [0, 1, 2, 3, 4], [5, 6, 7, 8, 9];
    assert lo + hi == [0, 1, 2, 3, 4, 5, 6, 7, 8, 9];
    FilterAppend(Odd, lo, hi);
    FilterOddLow();
    FilterOddHigh();
    assert [1, 3] + [5, 7, 9] == [1, 3, 5, 7, 9];
    MapSuccOdds();
  }

  lemma MapSuccOdds()
    ensures Map(Succ, [1, 3, 5, 7, 9]) == [2, 4, 6, 8, 10]
  {
    var r := Map(Succ, [1, 3, 5, 7, 9]);
    assert r[0] == 2 && r[1] == 4 && r[2] == 6 && r[3] == 8 && r[4] == 10;
  }

  // ---------------------------------------------------------------------
  // _same_name_as_constructor

  /** The parts of a constructor's argument specification that the helper reads. */
  datatype ArgSpec<V> = ArgSpec(
    args: seq<string>,                      // positional parameter names, `self` first
    varargs: Optional<string>,              // name of *args, if any
    defaults: Optional<seq<V>>,             // defaults of the last positional parameters
    kwonlydefaults: Optional<map<string, V>>) // defaults of keyword-only parameters

  /** The names of a sequence are pairwise different. */
  ghost predicate Distinct(xs: seq<string>)
  {
    forall i, j :: 0 <= i < j < |xs| ==> xs[i] != xs[j]
  }

  /** Python's `xs[lo:hi]` for non-negative bounds. */
  function Slice<T>(xs: seq<T>, lo: nat, hi: nat): (r: seq<T>)
    ensures |r| <= |xs|
  {
    if lo >= |xs| || hi <= lo then [] else xs[lo .. Min(hi, |xs|)]
  }

  /** Python's `xs[-d:]`; for d == 0 that is the whole list. */
  function LastN<T>(xs: seq<T>, d: nat): seq<T>
  {
    if d == 0 || d >= |xs| then xs else xs[|xs| - d..]
  }

  /** `m.update(zip(keys, vals))`: pairs are stored in order, and `zip` stops
      at the shorter input. */
  function UpdateZip<V>(m: map<string, V>, keys: seq<string>, vals: seq<V>): (r: map<string, V>)
    ensures forall k :: k in r <==> k in m || k in keys[..Min(|keys|, |vals|)]
    ensures forall k :: k in m && k !in keys[..Min(|keys|, |vals|)] ==> r[k] == m[k]
    ensures Distinct(keys) ==> forall j :: 0 <= j < Min(|keys|, |vals|) ==> r[keys[j]] == vals[j]
    decreases |keys|
  {
    if keys == [] || vals == [] then m
    else
      var r := UpdateZip(m[keys[0] := vals[0]], keys[1..], vals[1..]);
      assert keys[..Min(|keys|, |vals|)] == [keys[0]] + keys[1..][..Min(|keys| - 1, |vals| - 1)];
      assert Distinct(keys) ==> Distinct(keys[1..]) && keys[0] !in keys[1..] by {
        if Distinct(keys) {
          forall i, j | 0 <= i < j < |keys| - 1 ensures keys[1..][i] != keys[1..][j] {
            assert keys[1..][i] == keys[i + 1] && keys[1..][j] == keys[j + 1];
          }
          forall i | 0 <= i < |keys| - 1 ensures keys[1..][i] != keys[0] {
            assert keys[1..][i] == keys[i + 1];
          }
        }
      }
      assert Distinct(keys) ==> forall j :: 1 <= j < Min(|keys|, |vals|) ==>
        keys[j] == keys[1..][j - 1] && vals[j] == vals[1..][j - 1];
      r
  }

  /** The parameter names that receive positional arguments (skipping `self`). */
  function PositionalNames<V>(spec: ArgSpec<V>, args: seq<V>): seq<string>
  {
    Slice(spec.args, 1, |args| + 1)
  }

  /** The parameter names paired with the defaults. */
  function DefaultNames<V>(spec: ArgSpec<V>): seq<string>
  {
    match spec.defaults
    case Of(ds) => LastN(spec.args, |ds|)
    case Empty => []
  }

  function DefaultValues<V>(spec: ArgSpec<V>): seq<V>
  {
    match spec.defaults
    case Of(ds) => ds
    case Empty => []
  }

  function KwOnlyDefaults<V>(spec: ArgSpec<V>): map<string, V>
  {
    match spec.kwonlydefaults
    case Of(m) => m
    case Empty => map[]
  }

  /** A name is given a positional argument when it is among the first
      |args| names after `self`. */
  ghost predicate PassedPositionally<V>(spec: ArgSpec<V>, args: seq<V>, i: int)
  {
    0 <= i < |args| && i + 1 < |spec.args|
  }

  /** A defaulted parameter that is paired with a default value. */
  ghost predicate PairedWithDefault<V>(spec: ArgSpec<V>, j: int)
  {
    0 <= j < Min(|DefaultNames(spec)|, |DefaultValues(spec)|)
  }

  /** _same_name_as_constructor: the attribute dictionary, built by four
      successive updates — positional arguments, then the defaults of the
      defaulted parameters, then keyword-only defaults, then `kwargs`. A
      default overwrites a value passed positionally for the same name. */
  method SameNameAsConstructor<V>(spec: ArgSpec<V>, args: seq<V>, kwargs: map<string, V>)
    returns (r: Result<map<string, V>>)
    ensures spec.varargs.Of? <==> r == Err(VarArgPresent)
    ensures spec.varargs.Empty? ==> r.Ok?
    ensures r.Ok? ==> forall k :: k in r.value <==>
              k in PositionalNames(spec, args) || k in DefaultNames(spec)[..Min(|DefaultNames(spec)|, |DefaultValues(spec)|)]
              || k in KwOnlyDefaults(spec) || k in kwargs
    ensures r.Ok? ==> forall k :: k in kwargs ==> k in r.value && r.value[k] == kwargs[k]
    ensures r.Ok? ==> forall k :: k in KwOnlyDefaults(spec) && k !in kwargs ==>
              k in r.value && r.value[k] == KwOnlyDefaults(spec)[k]
    ensures r.Ok? && Distinct(spec.args) ==> forall j {:trigger DefaultNames(spec)[j]} ::
              PairedWithDefault(spec, j) && DefaultNames(spec)[j] !in KwOnlyDefaults(spec) && DefaultNames(spec)[j] !in kwargs
              ==> DefaultNames(spec)[j] in r.value && r.value[DefaultNames(spec)[j]] == DefaultValues(spec)[j]
    ensures r.Ok? && Distinct(spec.args) ==> forall i {:trigger spec.args[i + 1]} ::
              PassedPositionally(spec, args, i) && spec.args[i + 1] !in DefaultNames(spec)
              && spec.args[i + 1] !in KwOnlyDefaults(spec) && spec.args[i + 1] !in kwargs
              ==> spec.args[i + 1] in r.value && r.value[spec.args[i + 1]] == args[i]
  {
    if spec.varargs.Of? {
      return Err(VarArgPresent);
    }
    var posNames := PositionalNames(spec, args);
    PositionalNamesAt(spec, args);
    var objDict: map<string, V> := map[];
    objDict := UpdateZip(objDict, posNames, args);
    var afterPositional := objDict;
    if spec.defaults.Of? {
      objDict := UpdateZip(objDict, DefaultNames(spec), spec.defaults.value);
    }
    var afterDefaults := objDict;
    DistinctLastN(spec);
    if spec.kwonlydefaults.Of? {
      objDict := objDict + spec.kwonlydefaults.value;
    }
    objDict := objDict + kwargs;
    if Distinct(spec.args) {
      var names := DefaultNames(spec);
      forall j | PairedWithDefault(spec, j) && names[j] !in KwOnlyDefaults(spec) && names[j] !in kwargs
        ensures names[j] in objDict && objDict[names[j]] == DefaultValues(spec)[j]
      {
        assert names[..Min(|names|, |DefaultValues(spec)|)][j] == names[j];
      }
      forall i | PassedPositionally(spec, args, i) && spec.args[i + 1] !in names
                 && spec.args[i + 1] !in KwOnlyDefaults(spec) && spec.args[i + 1] !in kwargs
        ensures spec.args[i + 1] in objDict && objDict[spec.args[i + 1]] == args[i]
      {
        assert posNames[..Min(|posNames|, |args|)][i] == posNames[i];
        assert spec.args[i + 1] !in names[..Min(|names|, |DefaultValues(spec)|)];
      }
    }
    r := Ok(objDict);
  }

  /** Name i+1 (after `self`) is the i-th positional name, and the positional
      names are pairwise different when all names are. */
  lemma PositionalNamesAt<V>(spec: ArgSpec<V>, args: seq<V>)
    ensures Min(|PositionalNames(spec, args)|, |args|) == |PositionalNames(spec, args)|
    ensures forall i :: PassedPositionally(spec, args, i) <==> 0 <= i < |PositionalNames(spec, args)|
    ensures forall i :: 0 <= i < |PositionalNames(spec, args)| ==> PositionalNames(spec, args)[i] == spec.args[i + 1]
    ensures Distinct(spec.args) ==> Distinct(PositionalNames(spec, args))
  {
    var p := PositionalNames(spec, args);
    if Distinct(spec.args) && |p| > 0 {
      forall i, j | 0 <= i < j < |p| ensures p[i] != p[j] {
        assert p[i] == spec.args[i + 1] && p[j] == spec.args[j + 1];
      }
    }
  }

  lemma DistinctLastN<V>(spec: ArgSpec<V>)
    ensures Distinct(spec.args) ==> Distinct(DefaultNames(spec))
  {
    var d := DefaultNames(spec);
    if Distinct(spec.args) && d != spec.args && d != [] {
      var off := |spec.args| - |d|;
      forall i, j | 0 <= i < j < |d| ensures d[i] != d[j] {
        assert d[i] == spec.args[off + i] && d[j] == spec.args[off + j];
      }
    }
  }

  /** The spec of `Foo(self, a, b, p=3, ...)` from the utility tests;
      `*, q` without a default and `**kwargs` leave no trace in it. */
  function FooSpec(): ArgSpec<int>
  {
    ArgSpec(["self", "a", "b", "p"], Empty, Of([3]), Empty)
  }

  lemma FooSpecFacts()
    ensures Distinct(FooSpec().args)
    ensures PositionalNames(FooSpec(), [1, 2]) == ["a", "b"]
    ensures DefaultNames(FooSpec()) == ["p"] && DefaultValues(FooSpec()) == [3]
    ensures FooSpec().args[0 + 1] == "a" && FooSpec().args[1 + 1] == "b" && FooSpec().args[2 + 1] == "p"
    ensures PassedPositionally(FooSpec(), [1, 2], 0) && PassedPositionally(FooSpec(), [1, 2], 1)
  {
  }

  /** The names receiving the three positional arguments of `Foo(1, 2, 7)`. */
  lemma FooSpecThreeArgs()
    ensures PositionalNames(FooSpec(), [1, 2, 7]) == ["a", "b", "p"]
    ensures PassedPositionally(FooSpec(), [1, 2, 7], 0) && PassedPositionally(FooSpec(), [1, 2, 7], 1)
    ensures PassedPositionally(FooSpec(), [1, 2, 7], 2)
    ensures DefaultNames(FooSpec())[..Min(|DefaultNames(FooSpec())|, |DefaultValues(FooSpec())|)] == ["p"]
    ensures DefaultNames(FooSpec())[0] == "p" && PairedWithDefault(FooSpec(), 0)
  {
  }

  /** `Foo(self, a, b, p=3, **kwargs)` called as `Foo(1, 2, p=4, q=10)`. */
  method ConstructorSetterKwargsExample() returns (d: Result<map<string, int>>)
    ensures d == Ok(map["a" := 1, "b" := 2, "p" := 4, "q" := 10])
  {
    FooSpecFacts();
    d := SameNameAsConstructor(FooSpec(), [1, 2], map["p" := 4, "q" := 10]);
    var expected := map["a" := 1, "b" := 2, "p" := 4, "q" := 10];
    assert forall k :: k in d.value <==> k in expected;
    assert d.value["a"] == 1 && d.value["b"] == 2;
    assert forall k :: k in d.value ==> d.value[k] == expected[k];
    assert d.value == expected;
  }

  /** `Foo(self, a, b, p=3, *, q)` called as `Foo(1, 2, p=5, q=100)`. */
  method ConstructorSetterKwOnlyNoKwargsExample() returns (d: Result<map<string, int>>)
    ensures d == Ok(map["a" := 1, "b" := 2, "p" := 5, "q" := 100])
  {
    FooSpecFacts();
    d := SameNameAsConstructor(FooSpec(), [1, 2], map["p" := 5, "q" := 100]);
    var expected := map["a" := 1, "b" := 2, "p" := 5, "q" := 100];
    assert forall k :: k in d.value <==> k in expected;
    assert d.value["a"] == 1 && d.value["b"] == 2;
    assert forall k :: k in d.value ==> d.value[k] == expected[k];
    assert d.value == expected;
  }

  /** `Foo(self, a, b, p=3, *, q, **kwargs)` called as
      `Foo(1, 2, p=5, q=100, r=9)`. */
  method ConstructorSetterKwOnlyExample() returns (d: Result<map<string, int>>)
    ensures d == Ok(map["a" := 1, "b" := 2, "p" := 5, "q" := 100, "r" := 9])
  {
    FooSpecFacts();
    d := SameNameAsConstructor(FooSpec(), [1, 2], map["p" := 5, "q" := 100, "r" := 9]);
    var expected := map["a" := 1, "b" := 2, "p" := 5, "q" := 100, "r" := 9];
    assert forall k :: k in d.value <==> k in expected;
    assert d.value["a"] == 1 && d.value["b"] == 2;
    assert forall k :: k in d.value ==> d.value[k] == expected[k];
    assert d.value == expected;
  }

  /** A dictionary with exactly the attributes a, b and p. */
  lemma ThreeAttributes(m: map<string, int>, a: int, b: int, p: int)
    requires "a" in m && m["a"] == a && "b" in m && m["b"] == b && "p" in m && m["p"] == p
    requires forall k :: k in m ==> k == "a" || k == "b" || k == "p"
    ensures m == map["a" := a, "b" := b, "p" := p]
  {
  }

  /** The attribute names of `Foo(1, 2, 7)` are a, b and p. */
  lemma FooThreeArgsKeys(m: map<string, int>, kwargs: map<string, int>)
    requires kwargs == map[]
    requires forall k :: k in m <==>
               k in PositionalNames(FooSpec(), [1, 2, 7])
               || k in DefaultNames(FooSpec())[..Min(|DefaultNames(FooSpec())|, |DefaultValues(FooSpec())|)]
               || k in KwOnlyDefaults(FooSpec()) || k in kwargs
    ensures forall k :: k in m ==> k == "a" || k == "b" || k == "p"
  {
    FooSpecThreeArgs();
  }

  /** As written, a value passed positionally to a defaulted parameter is
      replaced by the default: `Foo(self, a, b, p=3)` called as `Foo(1, 2, 7)`
      gets the attribute p == 3 although its constructor receives p == 7. */
  method PositionalDefaultAsWritten() returns (d: Result<map<string, int>>)
    ensures d == Ok(map["a" := 1, "b" := 2, "p" := 3])
  {
    FooSpecFacts();
    FooSpecThreeArgs();
    d := SameNameAsConstructor(FooSpec(), [1, 2, 7], map[]);
    var m := d.value;
    assert "a" in m && m["a"] == 1;
    assert "b" in m && m["b"] == 2;
    assert "p" in m && m["p"] == 3;
    FooThreeArgsKeys(m, map[]);
    ThreeAttributes(m, 1, 2, 3);
  }

  /** The attribute dictionary as the decorator evidently intends: the
      defaults are applied first, so that positional arguments, then
      keyword-only defaults, then `kwargs` override them. */
  method SameNameAsConstructorIntended<V>(spec: ArgSpec<V>, args: seq<V>, kwargs: map<string, V>)
    returns (r: Result<map<string, V>>)
    ensures spec.varargs.Of? <==> r == Err(VarArgPresent)
    ensures spec.varargs.Empty? ==> r.Ok?
    ensures r.Ok? ==> forall k :: k in r.value <==>
              k in PositionalNames(spec, args) || k in DefaultNames(spec)[..Min(|DefaultNames(spec)|, |DefaultValues(spec)|)]
              || k in KwOnlyDefaults(spec) || k in kwargs
    ensures r.Ok? ==> forall k :: k in kwargs ==> k in r.value && r.value[k] == kwargs[k]
    ensures r.Ok? ==> forall k :: k in KwOnlyDefaults(spec) && k !in kwargs ==>
              k in r.value && r.value[k] == KwOnlyDefaults(spec)[k]
    ensures r.Ok? && Distinct(spec.args) ==> forall j {:trigger DefaultNames(spec)[j]} ::
              PairedWithDefault(spec, j) && DefaultNames(spec)[j] !in PositionalNames(spec, args)
              && DefaultNames(spec)[j] !in KwOnlyDefaults(spec) && DefaultNames(spec)[j] !in kwargs
              ==> DefaultNames(spec)[j] in r.value && r.value[DefaultNames(spec)[j]] == DefaultValues(spec)[j]
    ensures r.Ok? && Distinct(spec.args) ==> forall i {:trigger spec.args[i + 1]} ::
              PassedPositionally(spec, args, i)
              && spec.args[i + 1] !in KwOnlyDefaults(spec) && spec.args[i + 1] !in kwargs
              ==> spec.args[i + 1] in r.value && r.value[spec.args[i + 1]] == args[i]
  {
    if spec.varargs.Of? {
      return Err(VarArgPresent);
    }
    PositionalNamesAt(spec, args);
    DistinctLastN(spec);
    var objDict: map<string, V> := map[];
    if spec.defaults.Of? {
      objDict := UpdateZip(objDict, DefaultNames(spec), spec.defaults.value);
    }
    var afterDefaults := objDict;
    var posNames := PositionalNames(spec, args);
    objDict := UpdateZip(objDict, posNames, args);
    if spec.kwonlydefaults.Of? {
      objDict := objDict + spec.kwonlydefaults.value;
    }
    objDict := objDict + kwargs;
    if Distinct(spec.args) {
      var names := DefaultNames(spec);
      assert posNames[..Min(|posNames|, |args|)] == posNames;
      forall j | PairedWithDefault(spec, j) && names[j] !in posNames
                 && names[j] !in KwOnlyDefaults(spec) && names[j] !in kwargs
        ensures names[j] in objDict && objDict[names[j]] == DefaultValues(spec)[j]
      {
        assert names[..Min(|names|, |DefaultValues(spec)|)][j] == names[j];
      }
      forall i | PassedPositionally(spec, args, i)
                 && spec.args[i + 1] !in KwOnlyDefaults(spec) && spec.args[i + 1] !in kwargs
        ensures spec.args[i + 1] in objDict && objDict[spec.args[i + 1]] == args[i]
      {
        assert posNames[i] == spec.args[i + 1];
      }
    }
    r := Ok(objDict);
  }

  /** With the intended order the positional value survives: p == 7. */
  method PositionalDefaultIntended() returns (d: Result<map<string, int>>)
    ensures d == Ok(map["a" := 1, "b" := 2, "p" := 7])
  {
    FooSpecFacts();
    FooSpecThreeArgs();
    d := SameNameAsConstructorIntended(FooSpec(), [1, 2, 7], map[]);
    var m := d.value;
    assert "a" in m && m["a"] == 1;
    assert "b" in m && m["b"] == 2;
    assert "p" in m && m["p"] == 7;
    FooThreeArgsKeys(m, map[]);
    ThreeAttributes(m, 1, 2, 7);
  }

  // ---------------------------------------------------------------------
  // date_generator, on day numbers

  /** start, start + step, ... up to and including `last`. */
  function SteppedRange(start: int, last: int, step: int): (r: seq<int>)
    requires step >= 1
    ensures forall i :: 0 <= i < |r| ==> start <= r[i] <= last
    ensures forall i, j :: 0 <= i < j < |r| ==> r[i] < r[j]
    decreases if start <= last then last - start + 1 else 0
  {
    if start > last then []
    else
      var rest := SteppedRange(start + step, last, step);
      assert forall i :: 0 <= i < |rest| ==> start < rest[i];
      [start] + rest
  }

  /** The generated days are exactly the days of [start, last] that are a
      whole number of steps after `start`. */
  lemma {:induction false} SteppedRangeMembers(start: int, last: int, step: int, x: int)
    requires step >= 1
    ensures x in SteppedRange(start, last, step) <==> start <= x <= last && (x - start) % step == 0
    decreases if start <= last then last - start + 1 else 0
  {
    if start <= last {
      var rest := SteppedRange(start + step, last, step);
      assert SteppedRange(start, last, step) == [start] + rest;
      SteppedRangeMembers(start + step, last, step, x);
      if x < start + step {
        assert x !in rest;
        if start < x {
          ModBelow(x - start, step);
        }
      } else {
        ModShift(x - start, step);
        assert x - (start + step) == (x - start) - step;
      }
    }
  }

  /** A positive number below the step is not a multiple of it. */
  lemma ModBelow(y: int, k: int)
    requires 0 < y < k
    ensures y % k != 0
  {
    assert y / k == 0 by {
      if y / k != 0 {
        MulSign(k, y / k);
      }
    }
  }

  lemma MulSign(k: int, d: int)
    requires k >= 1
    ensures d >= 1 ==> k * d >= k
    ensures d <= -1 ==> k * d <= -k
  {
    if d >= 1 {
      assert k * d == k * (d - 1) + k;
      assert k * (d - 1) >= 0;
    } else if d <= -1 {
      assert k * d == k * (d + 1) - k;
      assert k * (d + 1) <= 0;
    }
  }

  lemma MulZero(k: int, d: int)
    requires k >= 1 && -k < k * d < k
    ensures d == 0
  {
    MulSign(k, d);
  }

  lemma ModShift(y: int, k: int)
    requires k >= 1
    ensures (y - k) % k == y % k
  {
    var q1, m1 := (y - k) / k, (y - k) % k;
    var q, m := y / k, y % k;
    assert k * q1 + m1 == y - k;
    assert k * q + m == y;
    assert k * (q1 + 1 - q) == m - m1;
    MulZero(k, q1 + 1 - q);
  }

  /** Consecutive days are one step apart and the first is `start`. */
  lemma {:induction false} SteppedRangeSteps(start: int, last: int, step: int)
    requires step >= 1
    ensures start <= last <==> SteppedRange(start, last, step) != []
    ensures start <= last ==> SteppedRange(start, last, step)[0] == start
    ensures var r := SteppedRange(start, last, step);
            forall i :: 0 <= i < |r| - 1 ==> r[i + 1] == r[i] + step
    decreases if start <= last then last - start + 1 else 0
  {
    if start <= last {
      SteppedRangeSteps(start + step, last, step);
      var r := SteppedRange(start, last, step);
      var rest := SteppedRange(start + step, last, step);
      forall i | 0 <= i < |r| - 1 ensures r[i + 1] == r[i] + step {
        if i > 0 { assert r[i] == rest[i - 1] && r[i + 1] == rest[i]; }
      }
    }
  }

  /** date_generator: checks the bounds (an `assert` in the code), drops the
      end day when it is excluded, then yields start, start + interval, ...
      while the day is not after the end. */
  method DateGenerator(start: int, end: int, includeEnd: bool, interval: int) returns (r: Result<seq<int>>)
    requires interval >= 1
    ensures includeEnd && start > end ==> r == Err(AssertionError)
    ensures !includeEnd && start >= end ==> r == Err(AssertionError)
    ensures includeEnd && start <= end ==> r == Ok(SteppedRange(start, end, interval))
    ensures !includeEnd && start < end ==> r == Ok(SteppedRange(start, end - 1, interval))
  {
    var last := end;
    if includeEnd {
      if !(start <= last) {
        return Err(AssertionError);
      }
    } else {
      if !(start < last) {
        return Err(AssertionError);
      }
      last := last - 1;
    }
    var days: seq<int> := [];
    var day := start;
    while day <= last
      invariant days + SteppedRange(day, last, interval) == SteppedRange(start, last, interval)
      decreases last - day
    {
      days := days + [day];
      day := day + interval;
    }
    assert days + [] == days;
    r := Ok(days);
  }

  /** The example of the utility tests: 1 to 10 January in steps of two days. */
  lemma DateGeneratorExample()
    ensures SteppedRange(1, 10, 2) == [1, 3, 5, 7, 9]
  {
    assert SteppedRange(11, 10, 2) == [];
    assert SteppedRange(9, 10, 2) == [9];
    assert SteppedRange(7, 10, 2) == [7, 9];
    assert SteppedRange(5, 10, 2) == [5, 7, 9];
    assert SteppedRange(3, 10, 2) == [3, 5, 7, 9];
  }
}
