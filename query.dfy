/**
 * The query algebra of `Commits` (`filter`, `exclude`, `group`) over an
 * ordered collection. An attribute lookup `getattr(commit, attr)` is the
 * projection `key`; `Commits` in the commit module supplies it and handles
 * the lookup's own failure.
 */
module Query {
  import opened Wrappers
  import opened Errors
  import opened Values

  /** How `filter` and `exclude` compare an attribute with the given value (`_equals`). */
  datatype Criterion =
    | /** `match=False`: the attribute equals the value. */
      Equals(value: Value)
    | /** `match=True`: `re.match(pattern, attribute)`, with the regex engine as a parameter. */
      Matches(pattern: string, reMatch: (string, string) -> bool)

  /** `_equals(a, b, match)`: under `match` an attribute that is not a string never matches. */
  predicate Holds(c: Criterion, v: Value) {
    match c
    case Equals(w) => v == w
    case Matches(p, reMatch) => v.VStr? && reMatch(p, v.s)
  }

  /** `Commits.filter`: the elements whose attribute satisfies the criterion, in order. */
  function Filter<T(==)>(xs: seq<T>, key: T -> Value, c: Criterion): (r: seq<T>)
    ensures |r| <= |xs|
    ensures forall i :: 0 <= i < |r| ==> Holds(c, key(r[i]))
  {
    if |xs| == 0 then []
    else
      assert xs == [xs[0]] + xs[1..];
      (if Holds(c, key(xs[0])) then [xs[0]] else []) + Filter(xs[1..], key, c)
  }

  /** `Commits.exclude`: the elements whose attribute does not satisfy the criterion, in order. */
  function Exclude<T(==)>(xs: seq<T>, key: T -> Value, c: Criterion): (r: seq<T>)
    ensures |r| <= |xs|
    ensures forall i :: 0 <= i < |r| ==> !Holds(c, key(r[i]))
  {
    if |xs| == 0 then []
    else
      assert xs == [xs[0]] + xs[1..];
      (if Holds(c, key(xs[0])) then [] else [xs[0]]) + Exclude(xs[1..], key, c)
  }

  /** `a` is `b` with some elements left out: `a` keeps the relative order of `b`. */
  predicate Subseq<T(==)>(a: seq<T>, b: seq<T>)
    decreases |b|
  {
    if |a| == 0 then true
    else if |b| == 0 then false
    else (a[0] == b[0] && Subseq(a[1..], b[1..])) || Subseq(a, b[1..])
  }

  lemma FilterCons<T>(x: T, rest: seq<T>, key: T -> Value, c: Criterion)
    ensures Filter([x] + rest, key, c) == (if Holds(c, key(x)) then [x] else []) + Filter(rest, key, c)
    ensures Exclude([x] + rest, key, c) == (if Holds(c, key(x)) then [] else [x]) + Exclude(rest, key, c)
  {
    assert ([x] + rest)[1..] == rest;
  }

  /**
   * `filter` and `exclude` with the same arguments split the collection:
   * together they hold every element exactly as often as the collection does.
   */
  lemma {:induction false} FilterExcludePartition<T>(xs: seq<T>, key: T -> Value, c: Criterion)
    ensures multiset(Filter(xs, key, c)) + multiset(Exclude(xs, key, c)) == multiset(xs)
    ensures |Filter(xs, key, c)| + |Exclude(xs, key, c)| == |xs|
  {
    if |xs| > 0 {
      FilterExcludePartition(xs[1..], key, c);
      PartitionStep(xs, key, c);
    }
    MultisetSize(Filter(xs, key, c), Exclude(xs, key, c), xs);
  }

  lemma MultisetSize<T>(a: seq<T>, b: seq<T>, c: seq<T>)
    requires multiset(a) + multiset(b) == multiset(c)
    ensures |a| + |b| == |c|
  {
    assert |multiset(a)| == |a| && |multiset(b)| == |b| && |multiset(c)| == |c|;
  }

  lemma PartitionStep<T>(xs: seq<T>, key: T -> Value, c: Criterion)
    requires |xs| > 0
    ensures multiset(xs) == multiset{xs[0]} + multiset(xs[1..])
    ensures multiset(Filter(xs, key, c)) + multiset(Exclude(xs, key, c))
      == multiset{xs[0]} + multiset(Filter(xs[1..], key, c)) + multiset(Exclude(xs[1..], key, c))
  {
    var x, rest := xs[0], xs[1..];
    assert xs == [x] + rest;
    FilterCons(x, rest, key, c);
    var f, e := Filter(rest, key, c), Exclude(rest, key, c);
    if Holds(c, key(x)) {
      assert multiset([x] + f) == multiset{x} + multiset(f);
    } else {
      assert multiset([x] + e) == multiset{x} + multiset(e);
    }
  }

  /** `filter` and `exclude` keep the collection's order. */
  lemma {:induction false} FilterExcludeOrder<T>(xs: seq<T>, key: T -> Value, c: Criterion)
    ensures Subseq(Filter(xs, key, c), xs) && Subseq(Exclude(xs, key, c), xs)
  {
    if |xs| > 0 {
      var x, rest := xs[0], xs[1..];
      assert xs == [x] + rest;
      FilterExcludeOrder(rest, key, c);
      FilterCons(x, rest, key, c);
      ConsSubseq(x, rest, Filter(rest, key, c), Holds(c, key(x)));
      ConsSubseq(x, rest, Exclude(rest, key, c), !Holds(c, key(x)));
    }
  }

  /** Extending a subsequence of `rest` to one of `[x] + rest`, keeping or dropping `x`. */
  lemma ConsSubseq<T>(x: T, rest: seq<T>, a: seq<T>, keep: bool)
    requires Subseq(a, rest)
    ensures Subseq((if keep then [x] else []) + a, [x] + rest)
  {
    var b := [x] + rest;
    assert b[1..] == rest;
    if keep {
      assert ([x] + a)[1..] == a;
    } else {
      assert [] + a == a;
    }
  }

  /** An element is selected by `filter` exactly when it is in the collection and satisfies the criterion; `exclude` takes the rest. */
  lemma FilterMembers<T>(xs: seq<T>, key: T -> Value, c: Criterion)
    ensures forall x :: x in Filter(xs, key, c) <==> x in xs && Holds(c, key(x))
    ensures forall x :: x in Exclude(xs, key, c) <==> x in xs && !Holds(c, key(x))
  {
    FilterExcludePartition(xs, key, c);
    var f, e := Filter(xs, key, c), Exclude(xs, key, c);
    forall x
      ensures x in f <==> x in xs && Holds(c, key(x))
      ensures x in e <==> x in xs && !Holds(c, key(x))
    {
      assert (x in xs) == (x in multiset(xs));
      assert (x in f) == (x in multiset(f)) && (x in e) == (x in multiset(e));
      assert multiset(xs)[x] == multiset(f)[x] + multiset(e)[x];
      if x in f {
        var i :| 0 <= i < |f| && f[i] == x;
      }
      if x in e {
        var i :| 0 <= i < |e| && e[i] == x;
      }
    }
  }

  /** `filter` selects nothing exactly when no element satisfies the criterion. */
  lemma {:induction false} FilterEmpty<T>(xs: seq<T>, key: T -> Value, c: Criterion)
    ensures |Filter(xs, key, c)| == 0 <==> forall i :: 0 <= i < |xs| ==> !Holds(c, key(xs[i]))
  {
    if |xs| > 0 {
      FilterEmpty(xs[1..], key, c);
      assert forall i :: 1 <= i < |xs| ==> xs[i] == xs[1..][i - 1];
    }
  }

  /** Under `match=True` only string attributes can be selected. */
  lemma MatchSelectsOnlyStrings<T>(xs: seq<T>, key: T -> Value, pattern: string, reMatch: (string, string) -> bool)
    ensures forall x :: x in Filter(xs, key, Matches(pattern, reMatch)) ==> key(x).VStr?
    ensures forall x :: x in xs && !key(x).VStr? ==> x in Exclude(xs, key, Matches(pattern, reMatch))
  {
  }

  predicate Distinct<T(==)>(s: seq<T>) {
    forall i, j :: 0 <= i < j < |s| ==> s[i] != s[j]
  }

  /** Position of the first occurrence of `x` in `s`. */
  function IndexOf<T(==)>(s: seq<T>, x: T): (i: nat)
    requires x in s
    ensures i < |s| && s[i] == x && x !in s[..i]
  {
    if s[0] == x then 0
    else
      assert x in s[1..] by {
        assert s == [s[0]] + s[1..];
      }
      var j := IndexOf(s[1..], x);
      assert s[..j + 1] == [s[0]] + s[1..][..j];
      1 + j
  }

  /** In a longer sequence the first occurrence of an element of a prefix is where the prefix has it. */
  lemma {:induction false} IndexOfPrefix<T>(s: seq<T>, n: nat, x: T)
    requires n <= |s| && x in s[..n]
    ensures IndexOf(s, x) == IndexOf(s[..n], x)
  {
    if s[0] != x {
      assert s[1..][..n - 1] == s[..n][1..];
      assert x in s[..n][1..] by {
        assert s[..n] == [s[0]] + s[..n][1..];
      }
      IndexOfPrefix(s[1..], n - 1, x);
    }
  }

  /** The attribute values of the collection, in order. */
  function Keys<T>(xs: seq<T>, key: T -> Value): (r: seq<Value>)
    ensures |r| == |xs|
    ensures forall i :: 0 <= i < |xs| ==> r[i] == key(xs[i])
  {
    seq(|xs|, i requires 0 <= i < |xs| => key(xs[i]))
  }

  /**
   * The keys of an `OrderedDict` filled from `vals` in order: each distinct
   * value once, in the order of its first occurrence.
   */
  function FirstSeen(vals: seq<Value>): (r: seq<Value>)
    ensures Distinct(r)
    ensures forall v :: v in r <==> v in vals
  {
    if |vals| == 0 then []
    else
      var n := |vals| - 1;
      var p := FirstSeen(vals[..n]);
      assert vals == vals[..n] + [vals[n]];
      if vals[n] in p then p else p + [vals[n]]
  }

  /**
   * The keys come in the order of their first occurrences: the keys of any
   * prefix of the values are a prefix of the keys of all of them.
   */
  lemma {:induction false} FirstSeenPrefix(vals: seq<Value>, n: nat)
    requires n <= |vals|
    ensures var p, r := FirstSeen(vals[..n]), FirstSeen(vals);
      |p| <= |r| && r[..|p|] == p
  {
    assert vals[..|vals|] == vals;
    if n < |vals| {
      var m := |vals| - 1;
      FirstSeenPrefix(vals[..m], n);
      assert vals[..m][..n] == vals[..n];
      var q, r := FirstSeen(vals[..m]), FirstSeen(vals);
      assert vals == vals[..m] + [vals[m]];
      assert |q| <= |r| && r[..|q|] == q;
    }
  }

  /** Values without repeats are their own first-seen order. */
  lemma {:induction false} FirstSeenDistinct(vals: seq<Value>)
    requires Distinct(vals)
    ensures FirstSeen(vals) == vals
  {
    if |vals| > 0 {
      var n := |vals| - 1;
      FirstSeenDistinct(vals[..n]);
      assert vals[n] !in vals[..n];
      assert vals == vals[..n] + [vals[n]];
    }
  }

  /** `s` with every occurrence of `v` left out (the generator `k for k in keys if k is not None`). */
  function Without(s: seq<Value>, w: Value): (r: seq<Value>)
    ensures forall v :: v in r <==> v in s && v != w
    ensures |r| <= |s|
  {
    if |s| == 0 then []
    else
      assert s == [s[0]] + s[1..];
      (if s[0] == w then [] else [s[0]]) + Without(s[1..], w)
  }

  lemma {:induction false} WithoutAbsent(s: seq<Value>, v: Value)
    requires v !in s
    ensures Without(s, v) == s
  {
    if |s| > 0 {
      assert s == [s[0]] + s[1..];
      WithoutAbsent(s[1..], v);
    }
  }

  lemma {:induction false} WithoutDistinct(s: seq<Value>, v: Value)
    requires Distinct(s)
    ensures Distinct(Without(s, v))
  {
    if |s| > 0 {
      WithoutDistinct(s[1..], v);
      assert s[0] !in s[1..] by {
        assert s == [s[0]] + s[1..];
      }
    }
  }

  /** Removing the one occurrence of `v` from a sequence without repeats (`keys.remove(None)`). */
  lemma {:induction false} RemoveOnly(s: seq<Value>, i: nat, v: Value)
    requires Distinct(s) && i < |s| && s[i] == v
    ensures s[..i] + s[i + 1..] == Without(s, v)
  {
    if i == 0 {
      assert v !in s[1..];
      WithoutAbsent(s[1..], v);
    } else {
      RemoveOnly(s[1..], i - 1, v);
      assert s[..i] + s[i + 1..] == [s[0]] + (s[1..][..i - 1] + s[1..][i..]);
    }
  }

  /** A sequence with the same elements and multiplicities as one without repeats has no repeats. */
  lemma {:induction false} DistinctCount<T>(b: seq<T>, x: T)
    requires Distinct(b)
    ensures multiset(b)[x] <= 1
  {
    if |b| > 0 {
      assert b == [b[0]] + b[1..];
      assert b[0] !in b[1..];
      DistinctCount(b[1..], x);
    }
  }

  lemma DistinctPermutation<T>(a: seq<T>, b: seq<T>)
    requires multiset(a) == multiset(b) && Distinct(b)
    ensures Distinct(a)
  {
    forall i, j | 0 <= i < j < |a|
      ensures a[i] != a[j]
    {
      if a[i] == a[j] {
        assert a == a[..j] + [a[j]] + a[j + 1..];
        assert a[i] in a[..j];
        assert multiset(a)[a[i]] >= 2;
        DistinctCount(b, a[i]);
      }
    }
  }

  /** The options of `Commits.group`. */
  datatype GroupOptions = GroupOptions(ascendingKeys: bool, descendingKeys: bool, noneKeyFirst: bool, noneKeyLast: bool)

  predicate Sorting(opts: GroupOptions) {
    opts.ascendingKeys || opts.descendingKeys
  }

  /**
   * The key order `group` produces from the natural (first-seen) keys:
   * unchanged, or sorted when a sort flag is set (descending wins over
   * ascending), with `None` moved to the front or the back as asked;
   * sorting keys of two kinds fails as Python's `sorted` does.
   */
  function Arrange(natural: seq<Value>, opts: GroupOptions): Result<seq<Value>, Error> {
    var others := Without(natural, VNone);
    if Sorting(opts) && !Sortable(others) then Err(TypeError)
    else
      var body :=
        if !Sorting(opts) then others
        else if opts.descendingKeys then Reverse(Sort(others))
        else Sort(others);
      if VNone !in natural then Ok(body)
      else if opts.noneKeyFirst then Ok([VNone] + body)
      else if opts.noneKeyLast || Sorting(opts) then Ok(body + [VNone])
      else Ok(natural)
  }

  /** The key order of `group` over the attribute values `vals`. */
  function KeyOrder(vals: seq<Value>, opts: GroupOptions): Result<seq<Value>, Error> {
    Arrange(FirstSeen(vals), opts)
  }

  /** The groups for the given keys: each key with `filter(attr, key)`. */
  function Buckets<T(==)>(xs: seq<T>, key: T -> Value, keys: seq<Value>): seq<(Value, seq<T>)> {
    seq(|keys|, i requires 0 <= i < |keys| => (keys[i], Filter(xs, key, Equals(keys[i]))))
  }

  /** The keys of `group`'s `OrderedDict` before any re-ordering. */
  method NaturalKeys<T>(xs: seq<T>, key: T -> Value) returns (keys: seq<Value>)
    ensures keys == FirstSeen(Keys(xs, key))
  {
    keys := [];
    for i := 0 to |xs|
      invariant keys == FirstSeen(Keys(xs[..i], key))
    {
      assert Keys(xs[..i + 1], key)[..i] == Keys(xs[..i], key);
      var k := key(xs[i]);
      if k !in keys {
        keys := keys + [k];
      }
    }
    assert xs[..|xs|] == xs;
  }

  /** Moves the one `None` key of `keys` to the front or to the back (`keys.remove(None)` then insert). */
  method PlaceNone(keys: seq<Value>, first: bool) returns (r: seq<Value>)
    requires Distinct(keys) && VNone in keys
    ensures first ==> r == [VNone] + Without(keys, VNone)
    ensures !first ==> r == Without(keys, VNone) + [VNone]
  {
    var i := IndexOf(keys, VNone);
    RemoveOnly(keys, i, VNone);
    r := keys[..i] + keys[i + 1..];
    if first {
      r := [VNone] + r;
    } else {
      r := r + [VNone];
    }
  }

  /** Appending `None` to keys without it: `None` is then the one key `Without` drops. */
  lemma {:induction false} AppendNone(body: seq<Value>)
    requires Distinct(body) && VNone !in body
    ensures Distinct(body + [VNone]) && Without(body + [VNone], VNone) == body
  {
    if |body| == 0 {
      assert Without([VNone], VNone) == [] + Without([], VNone);
    } else {
      AppendNone(body[1..]);
      assert (body + [VNone])[1..] == body[1..] + [VNone];
      assert body == [body[0]] + body[1..];
    }
  }

  lemma ReverseDistinct<T>(s: seq<T>)
    requires Distinct(s)
    ensures Distinct(Reverse(s))
  {
  }

  /** The sorted keys of `group` without `None`: `sorted(..., reverse=descending_keys)`. */
  method SortKeys(others: seq<Value>, descending: bool) returns (r: seq<Value>)
    requires Sortable(others) && Distinct(others) && VNone !in others
    ensures r == if descending then Reverse(Sort(others)) else Sort(others)
    ensures Distinct(r) && VNone !in r
  {
    r := Sort(others);
    DistinctPermutation(r, others);
    assert VNone !in multiset(others);
    if descending {
      r := Reverse(r);
      ReverseDistinct(Sort(others));
    }
  }

  /** Re-sorting the keys and moving the `None` key, as `group` does after collecting them. */
  method ArrangeKeys(natural: seq<Value>, opts: GroupOptions) returns (r: Result<seq<Value>, Error>)
    requires Distinct(natural)
    ensures r == Arrange(natural, opts)
  {
    var noneKeyFirst, noneKeyLast := opts.noneKeyFirst, opts.noneKeyLast;
    if Sorting(opts) && !(noneKeyFirst || noneKeyLast) {
      // Sorted keys default to putting the "None" key last.
      noneKeyLast := true;
    }
    var keys := natural;
    var others := Without(natural, VNone);
    WithoutDistinct(natural, VNone);

    // Re-sort the keys
    if Sorting(opts) {
      if !Sortable(others) {
        return Err(TypeError);
      }
      var sortedKeys := SortKeys(others, opts.descendingKeys);
      if VNone in keys {
        AppendNone(sortedKeys);
        sortedKeys := sortedKeys + [VNone];
      }
      keys := sortedKeys;
    } else if VNone !in keys {
      WithoutAbsent(keys, VNone);
    }

    // Change the position of the "None" key
    if (noneKeyFirst || noneKeyLast) && VNone in keys {
      keys := PlaceNone(keys, noneKeyFirst);
    }
    r := Ok(keys);
  }

  /** `Commits.group(attr, ...)`: an ordered mapping from each key to its elements. */
  method Group<T(==)>(xs: seq<T>, key: T -> Value, opts: GroupOptions) returns (r: Result<seq<(Value, seq<T>)>, Error>)
    ensures KeyOrder(Keys(xs, key), opts).Err? ==> r == Err(KeyOrder(Keys(xs, key), opts).error)
    ensures KeyOrder(Keys(xs, key), opts).Ok? ==> r == Ok(Buckets(xs, key, KeyOrder(Keys(xs, key), opts).value))
  {
    var natural := NaturalKeys(xs, key);
    var keys := ArrangeKeys(natural, opts);
    match keys
    case Err(e) => r := Err(e);
    case Ok(ks) => r := Ok(Buckets(xs, key, ks));
  }

  /** The key order does not depend on anything but the options and the set of values. */
  function Body(others: seq<Value>, opts: GroupOptions): seq<Value> {
    if !Sorting(opts) then others
    else if opts.descendingKeys then Reverse(Sort(others))
    else Sort(others)
  }

  lemma BodyKeys(others: seq<Value>, opts: GroupOptions)
    requires Distinct(others) && VNone !in others
    ensures Distinct(Body(others, opts)) && VNone !in Body(others, opts)
    ensures forall v :: v in Body(others, opts) <==> v in others
  {
    var s := Sort(others);
    DistinctPermutation(s, others);
    ReverseDistinct(s);
    forall v
      ensures v in s <==> v in others
      ensures v in Reverse(s) <==> v in s
    {
      assert v in s <==> v in multiset(others);
      if v in s {
        var i :| 0 <= i < |s| && s[i] == v;
        assert Reverse(s)[|s| - 1 - i] == v;
      }
    }
  }

  /**
   * Every key `group` returns is an attribute value of some element, every
   * attribute value is a key, and no key is repeated.
   */
  lemma KeyOrderKeys(vals: seq<Value>, opts: GroupOptions)
    requires KeyOrder(vals, opts).Ok?
    ensures Distinct(KeyOrder(vals, opts).value)
    ensures forall v :: v in KeyOrder(vals, opts).value <==> v in vals
  {
    var natural := FirstSeen(vals);
    var others := Without(natural, VNone);
    WithoutDistinct(natural, VNone);
    BodyKeys(others, opts);
    var body := Body(others, opts);
    if VNone in natural && (opts.noneKeyFirst || opts.noneKeyLast || Sorting(opts)) {
      AppendNone(body);
      PrependNone(body);
    } else if VNone !in natural {
      assert KeyOrder(vals, opts).value == body;
    }
  }

  lemma PrependNone(body: seq<Value>)
    requires Distinct(body) && VNone !in body
    ensures Distinct([VNone] + body)
  {
  }

  /**
   * The keys other than `None` are in strictly increasing order, or in
   * strictly decreasing order when `descending`.
   */
  predicate SortedKeys(s: seq<Value>, descending: bool) {
    forall i, j :: 0 <= i < j < |s| && s[i] != VNone && s[j] != VNone ==>
      if descending then Less(s[j], s[i]) else Less(s[i], s[j])
  }

  lemma SortStrict(others: seq<Value>)
    requires Sortable(others) && Distinct(others)
    ensures SortedKeys(Sort(others), false) && SortedKeys(Reverse(Sort(others)), true)
  {
    var s := Sort(others);
    SortAscending(others);
    DistinctPermutation(s, others);
    forall i, j | 0 <= i < j < |s|
      ensures Less(s[i], s[j])
    {
      LessTotal(s[i], s[j]);
    }
  }

  lemma PrependNoneSorted(body: seq<Value>, descending: bool)
    requires SortedKeys(body, descending)
    ensures SortedKeys([VNone] + body, descending)
  {
    var a := [VNone] + body;
    forall i, j | 0 <= i < j < |a| && a[i] != VNone && a[j] != VNone
      ensures if descending then Less(a[j], a[i]) else Less(a[i], a[j])
    {
      assert a[i] == body[i - 1] && a[j] == body[j - 1];
    }
  }

  lemma AppendNoneSorted(body: seq<Value>, descending: bool)
    requires SortedKeys(body, descending)
    ensures SortedKeys(body + [VNone], descending)
  {
    var a := body + [VNone];
    forall i, j | 0 <= i < j < |a| && a[i] != VNone && a[j] != VNone
      ensures if descending then Less(a[j], a[i]) else Less(a[i], a[j])
    {
      assert a[i] == body[i] && a[j] == body[j];
    }
  }

  /**
   * With `ascending_keys` the keys other than `None` come out in strictly
   * increasing order; with `descending_keys` in strictly decreasing order.
   */
  lemma KeyOrderSorted(vals: seq<Value>, opts: GroupOptions)
    requires KeyOrder(vals, opts).Ok? && Sorting(opts)
    ensures SortedKeys(KeyOrder(vals, opts).value, opts.descendingKeys)
  {
    var natural := FirstSeen(vals);
    var others := Without(natural, VNone);
    WithoutDistinct(natural, VNone);
    SortStrict(others);
    var body := Body(others, opts);
    PrependNoneSorted(body, opts.descendingKeys);
    AppendNoneSorted(body, opts.descendingKeys);
  }

  /**
   * Where `None` goes: first with `none_key_first`, otherwise last with
   * `none_key_last` or when sorting; without any flag the keys keep their
   * first-seen order, and with `none_key_last` alone the other keys do.
   */
  lemma KeyOrderNone(vals: seq<Value>, opts: GroupOptions)
    requires KeyOrder(vals, opts).Ok? && VNone in vals
    ensures var r := KeyOrder(vals, opts).value;
      && (opts.noneKeyFirst ==> r[0] == VNone)
      && (!opts.noneKeyFirst && (opts.noneKeyLast || Sorting(opts)) ==> r[|r| - 1] == VNone)
      && (!opts.noneKeyFirst && !opts.noneKeyLast && !Sorting(opts) ==> r == FirstSeen(vals))
      && (!Sorting(opts) ==> Without(r, VNone) == Without(FirstSeen(vals), VNone))
  {
    var natural := FirstSeen(vals);
    var others := Without(natural, VNone);
    WithoutDistinct(natural, VNone);
    AppendNone(others);
    assert Without([VNone] + others, VNone) == Without(others, VNone);
    WithoutAbsent(others, VNone);
  }

  /**
   * Sorting fails exactly when two attribute values other than `None` are
   * of different kinds (Python cannot order them); nothing else fails.
   */
  lemma KeyOrderTypeError(vals: seq<Value>, opts: GroupOptions)
    ensures KeyOrder(vals, opts).Err? <==> Sorting(opts) && exists i, j ::
      0 <= i < |vals| && 0 <= j < |vals| && vals[i] != VNone && vals[j] != VNone && KindOf(vals[i]) != KindOf(vals[j])
    ensures KeyOrder(vals, opts).Err? ==> KeyOrder(vals, opts).error == TypeError
  {
    var others := Without(FirstSeen(vals), VNone);
    if Sorting(opts) && !Sortable(others) {
      assert others[0] in others;
      var k :| 0 <= k < |others| && KindOf(others[k]) != KindOf(others[0]);
      assert others[0] in vals && others[k] in vals;
    }
    if Sorting(opts) && exists i, j ::
      0 <= i < |vals| && 0 <= j < |vals| && vals[i] != VNone && vals[j] != VNone && KindOf(vals[i]) != KindOf(vals[j])
    {
      var i, j :| 0 <= i < |vals| && 0 <= j < |vals| && vals[i] != VNone && vals[j] != VNone && KindOf(vals[i]) != KindOf(vals[j]);
      assert vals[i] in others && vals[j] in others;
    }
  }

  /** Two keys that sort as `d` before `v`, found in the order `None`, `d`, `v`. */
  predicate OrderedPair(d: Value, v: Value) {
    KindOf(d) == KindOf(v) != KNone && Less(d, v)
  }

  lemma PairFacts(d: Value, v: Value)
    requires OrderedPair(d, v)
    ensures Without([VNone, d, v], VNone) == [d, v]
    ensures Sortable([d, v]) && Sort([d, v]) == [d, v] && Reverse([d, v]) == [v, d]
    ensures VNone in [VNone, d, v]
  {
    PairWithout(d, v);
    PairSort(d, v);
    assert Reverse([d, v])[0] == v;
  }

  lemma PairWithout(d: Value, v: Value)
    requires d != VNone && v != VNone
    ensures Without([VNone, d, v], VNone) == [d, v]
  {
    assert [VNone, d, v][1..] == [d, v] && [d, v][1..] == [v] && [v][1..] == [];
    assert Without([v], VNone) == [v];
    assert Without([d, v], VNone) == [d] + [v];
  }

  lemma PairSort(d: Value, v: Value)
    requires OrderedPair(d, v)
    ensures Sort([d, v]) == [d, v]
  {
    if Less(v, d) {
      LessTransitive(d, v, d);
      LessIrreflexive(d);
    }
    assert [d, v][1..] == [v] && [v][1..] == [];
    assert Sort([v]) == [v];
    assert Insert(d, [v]) == [d] + [v] == [d, v];
  }

  /**
   * Grouping by a key whose values, in first-seen order, are `None`, `d`
   * and `v`, where `d` sorts before `v` (as the integration test's tags
   * `dev1.2` and `v1.1` do, see `TagsOrdered`): sorted ascending or
   * descending, with `None` last unless it is asked to come first.
   */
  lemma PairKeyOrder(d: Value, v: Value, opts: GroupOptions, body: seq<Value>)
    requires OrderedPair(d, v) && Sorting(opts)
    requires body == if opts.descendingKeys then [v, d] else [d, v]
    ensures KeyOrder([VNone, d, v], opts) == Ok(if opts.noneKeyFirst then [VNone] + body else body + [VNone])
  {
    assert Distinct([VNone, d, v]) by {
      LessIrreflexive(d);
    }
    FirstSeenDistinct([VNone, d, v]);
    PairFacts(d, v);
    assert Body([d, v], opts) == body;
  }

  /** The integration test's tags: `dev1.2` sorts before `v1.1`. */
  lemma TagsOrdered()
    ensures OrderedPair(VStr("dev1.2"), VStr("v1.1"))
  {
    assert StrLess("dev1.2", "v1.1");
  }

  /** The total number of elements over all groups. */
  function SumSizes<T>(g: seq<(Value, seq<T>)>): nat {
    if |g| == 0 then 0 else |g[0].1| + SumSizes(g[1..])
  }

  /** Each group holds, in the collection's order, exactly the elements whose attribute is its key. */
  lemma BucketContents<T>(xs: seq<T>, key: T -> Value, ks: seq<Value>)
    ensures var g := Buckets(xs, key, ks);
      |g| == |ks| &&
      forall i :: 0 <= i < |ks| ==>
        g[i].0 == ks[i] && Subseq(g[i].1, xs) && (forall x :: x in g[i].1 <==> x in xs && key(x) == ks[i])
  {
    var g := Buckets(xs, key, ks);
    forall i | 0 <= i < |ks|
      ensures Subseq(g[i].1, xs) && forall x :: x in g[i].1 <==> x in xs && key(x) == ks[i]
    {
      FilterExcludeOrder(xs, key, Equals(ks[i]));
      FilterMembers(xs, key, Equals(ks[i]));
    }
  }

  lemma {:induction false} BucketsStep<T>(x: T, rest: seq<T>, key: T -> Value, ks: seq<Value>)
    ensures SumSizes(Buckets([x] + rest, key, ks)) == multiset(ks)[key(x)] + SumSizes(Buckets(rest, key, ks))
  {
    if |ks| > 0 {
      var k, ks' := ks[0], ks[1..];
      BucketsStep(x, rest, key, ks');
      FilterCons(x, rest, key, Equals(k));
      assert Buckets([x] + rest, key, ks)[1..] == Buckets([x] + rest, key, ks');
      assert Buckets(rest, key, ks)[1..] == Buckets(rest, key, ks');
      assert ks == [k] + ks';
    }
  }

  /** Over keys without repeats that cover every attribute value, the groups together hold each element once. */
  lemma {:induction false} BucketsCover<T>(xs: seq<T>, key: T -> Value, ks: seq<Value>)
    requires Distinct(ks)
    requires forall i :: 0 <= i < |xs| ==> key(xs[i]) in ks
    ensures SumSizes(Buckets(xs, key, ks)) == |xs|
  {
    if |xs| == 0 {
      assert forall k :: Filter(xs, key, Equals(k)) == [];
      EmptyBuckets(key, ks);
    } else {
      var x, rest := xs[0], xs[1..];
      assert xs == [x] + rest;
      BucketsCover(rest, key, ks);
      BucketsStep(x, rest, key, ks);
      DistinctCount(ks, key(x));
    }
  }

  lemma {:induction false} EmptyBuckets<T>(key: T -> Value, ks: seq<Value>)
    ensures SumSizes(Buckets([], key, ks)) == 0
  {
    if |ks| > 0 {
      EmptyBuckets(key, ks[1..]);
      assert Buckets([], key, ks)[1..] == Buckets([], key, ks[1..]);
    }
  }

  /**
   * `group` partitions the collection: when it succeeds, the groups
   * together hold as many elements as the collection, and each group holds
   * exactly the elements whose attribute is its key.
   */
  lemma GroupPartition<T>(xs: seq<T>, key: T -> Value, opts: GroupOptions)
    requires KeyOrder(Keys(xs, key), opts).Ok?
    ensures SumSizes(Buckets(xs, key, KeyOrder(Keys(xs, key), opts).value)) == |xs|
  {
    var vals := Keys(xs, key);
    var ks := KeyOrder(vals, opts).value;
    KeyOrderKeys(vals, opts);
    forall i | 0 <= i < |xs|
      ensures key(xs[i]) in ks
    {
      assert vals[i] in vals;
    }
    BucketsCover(xs, key, ks);
  }

  /** Every element of the collection lands in the group keyed by its own attribute. */
  lemma GroupPlacement<T>(xs: seq<T>, key: T -> Value, opts: GroupOptions, i: nat)
    requires KeyOrder(Keys(xs, key), opts).Ok? && i < |xs|
    ensures var g := Buckets(xs, key, KeyOrder(Keys(xs, key), opts).value);
      exists j :: 0 <= j < |g| && g[j].0 == key(xs[i]) && xs[i] in g[j].1
  {
    var vals := Keys(xs, key);
    var ks := KeyOrder(vals, opts).value;
    KeyOrderKeys(vals, opts);
    assert vals[i] in vals;
    var j := IndexOf(ks, vals[i]);
    FilterMembers(xs, key, Equals(ks[j]));
    var g := Buckets(xs, key, ks);
    assert g[j].0 == key(xs[i]) && xs[i] in g[j].1;
  }
}
