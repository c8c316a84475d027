/** Values shared by every part of the model: optional values, the clock's
    timestamps, clamping to the unit interval and the two slicing rules
    (Python's `[:n]` and SQLite's `LIMIT n`). */
module Common {

  datatype Option<T> = None | Some(value: T)

  /** A point in time, in seconds. The store keeps ISO 8601 strings of one
      format, whose lexicographic order is their chronological order. */
  type Timestamp = int

  const SecondsPerHour: int := 3600
  const SecondsPerDay: int := 86400

  /** SQLite's `date(t)`: the calendar day a timestamp falls on. */
  function Day(t: Timestamp): int
  {
    t / SecondsPerDay
  }

  /** `max(0.0, min(1.0, x))`. */
  function Clamp(x: real): (r: real)
    ensures 0.0 <= r <= 1.0
    ensures 0.0 <= x <= 1.0 ==> r == x
    ensures x <= 0.0 ==> r == 0.0
    ensures 1.0 <= x ==> r == 1.0
  {
    if x < 0.0 then 0.0 else if x > 1.0 then 1.0 else x
  }

  function Min(a: int, b: int): int { if a <= b then a else b }
  function Max(a: int, b: int): int { if a <= b then b else a }

  function AbsReal(x: real): real { if x < 0.0 then -x else x }

  /** Python's slice `s[:n]`: a negative `n` drops the last `-n` items. */
  function PyTake<T>(s: seq<T>, n: int): (r: seq<T>)
    ensures r <= s
    ensures 0 <= n ==> |r| == Min(n, |s|)
    ensures n < 0 ==> |r| == Max(0, |s| + n)
  {
    if n >= 0 then s[..Min(n, |s|)] else s[..Max(0, |s| + n)]
  }

  /** SQLite's `LIMIT n`: a negative `n` means no upper bound. */
  function SqlLimit<T>(s: seq<T>, n: int): (r: seq<T>)
    ensures r <= s
    ensures 0 <= n ==> |r| == Min(n, |s|)
    ensures n < 0 ==> r == s
  {
    if n < 0 then s else s[..Min(n, |s|)]
  }

  /** How many items of `s` satisfy `p`, counted from the end so that a
      loop over a growing prefix extends it one item at a time. */
  function CountWhere<T>(s: seq<T>, p: T -> bool): (n: nat)
    ensures n <= |s|
  {
    if s == [] then 0
    else CountWhere(s[..|s| - 1], p) + (if p(s[|s| - 1]) then 1 else 0)
  }

  /** Counting by a weaker predicate counts at least as many items. */
  lemma {:induction false} CountWhereImplies<T>(s: seq<T>, p: T -> bool, q: T -> bool)
    requires forall x :: p(x) ==> q(x)
    ensures CountWhere(s, p) <= CountWhere(s, q)
  {
    if s != [] {
      CountWhereImplies(s[..|s| - 1], p, q);
    }
  }

  /** Items of two exclusive kinds together are at most all items. */
  lemma {:induction false} CountWhereDisjoint<T>(s: seq<T>, p: T -> bool, q: T -> bool)
    requires forall x :: !(p(x) && q(x))
    ensures CountWhere(s, p) + CountWhere(s, q) <= |s|
  {
    if s != [] {
      CountWhereDisjoint(s[..|s| - 1], p, q);
    }
  }

  /** The distinct items of `s` in order of first appearance: the order of
      the keys of a Python dict filled from `s`. */
  function Dedup<T(==,!new)>(s: seq<T>): (r: seq<T>)
    ensures forall x :: x in r <==> x in s
    ensures forall i, j :: 0 <= i < j < |r| ==> r[i] != r[j]
  {
    if s == [] then []
    else
      var init := Dedup(s[..|s| - 1]);
      assert forall x :: x in s ==> x in s[..|s| - 1] || x == s[|s| - 1];
      if s[|s| - 1] in init then init else init + [s[|s| - 1]]
  }

  /** A sequence without repetitions has as many items as its set. */
  lemma {:induction false} DistinctCard<T>(s: seq<T>)
    requires forall i, j :: 0 <= i < j < |s| ==> s[i] != s[j]
    ensures |set x | x in s| == |s|
  {
    if s != [] {
      var init := s[..|s| - 1];
      DistinctCard(init);
      var last := s[|s| - 1];
      assert last !in init by {
        forall k | 0 <= k < |init| ensures init[k] != last {
          assert init[k] == s[k];
        }
      }
      assert (set x | x in s) == (set x | x in init) + {last} by {
        assert s == init + [last];
      }
    }
  }

  /** Bounds on a quotient by a positive divisor. */
  lemma DivBetween(x: real, n: real, lo: real, hi: real)
    requires n > 0.0 && lo * n <= x <= hi * n
    ensures lo <= x / n <= hi
  {
    assert x / n * n == x;
  }

  /** A quotient by a positive divisor is 0 or 1 exactly when the dividend
      is 0 or the divisor. */
  lemma DivZeroOne(x: real, n: real)
    requires n > 0.0
    ensures x / n == 0.0 <==> x == 0.0
    ensures x / n == 1.0 <==> x == n
  {
    assert x / n * n == x;
  }

  /** The items of `s` that satisfy `p`, in order. */
  function Filter<T(!new)>(s: seq<T>, p: T -> bool): (r: seq<T>)
    ensures |r| <= |s|
    ensures forall x :: x in r <==> x in s && p(x)
  {
    if s == [] then []
    else Filter(s[..|s| - 1], p) + (if p(s[|s| - 1]) then [s[|s| - 1]] else [])
  }

  /** The prefix of `s` one item longer. */
  lemma TakeSnoc<T>(s: seq<T>, i: nat)
    requires i < |s|
    ensures s[..i + 1] == s[..i] + [s[i]]
  {
  }

  /** Extending a prefix of `s` by one item. */
  lemma PrefixSnoc<T>(done: seq<T>, s: seq<T>, j: nat)
    requires j < |s|
    ensures done + s[..j + 1] == (done + s[..j]) + [s[j]]
  {
    assert s[..j + 1] == s[..j] + [s[j]];
  }

  lemma {:induction false} FilterCount<T(!new)>(s: seq<T>, p: T -> bool)
    ensures |Filter(s, p)| == CountWhere(s, p)
  {
    if s != [] {
      FilterCount(s[..|s| - 1], p);
    }
  }

  lemma {:induction false} FilterAppend<T(!new)>(s: seq<T>, t: seq<T>, p: T -> bool)
    ensures Filter(s + t, p) == Filter(s, p) + Filter(t, p)
    decreases |t|
  {
    if t == [] {
      assert s + t == s;
    } else {
      var u := t[..|t| - 1];
      var x := t[|t| - 1];
      assert (s + t)[..|s + t| - 1] == s + u;
      assert (s + t)[|s + t| - 1] == x;
      FilterAppend(s, u, p);
      var tail := if p(x) then [x] else [];
      assert Filter(s + t, p) == Filter(s, p) + Filter(u, p) + tail;
    }
  }

  /** Filtering by pointwise-equal predicates gives the same items. */
  lemma {:induction false} FilterSamePredicate<T(!new)>(s: seq<T>, p: T -> bool, q: T -> bool)
    requires forall x :: p(x) == q(x)
    ensures Filter(s, p) == Filter(s, q)
  {
    if s != [] {
      FilterSamePredicate(s[..|s| - 1], p, q);
    }
  }
}
