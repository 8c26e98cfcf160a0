/** The generic helpers of `scripts/utils-general.js`: elapsed time between
    two timestamps, sum and mean of a list of numbers, and the two
    histogram helpers (unique elements and occurrence counts). */
module UtilsGeneral {
  import opened Wrappers

  /** A timestamp field as a pull-request record carries it: an ISO-8601
      string, or null. */
  type Timestamp = Option<string>

  /** `Date.parse`, milliseconds since the epoch. Calendar semantics are
      outside the model, so every operation that parses takes the parser
      as a parameter. */
  type DateParser = Timestamp -> int

  /** `1000 * 60 * 60 * 24`, the milliseconds in one day. */
  const MsPerDay: real := (1000 * 60 * 60 * 24) as real

  /** `getElapsedTime`: milliseconds from `before` to `after`. */
  function GetElapsedTime(ms: DateParser, before: Timestamp, after: Timestamp): (elapsed: int)
    ensures ms(before) + elapsed == ms(after)
  {
    ms(after) - ms(before)
  }

  /** Swapping the two timestamps negates the elapsed time. */
  lemma ElapsedTimeAntisymmetric(ms: DateParser, a: Timestamp, b: Timestamp)
    ensures GetElapsedTime(ms, a, b) == -GetElapsedTime(ms, b, a)
  {
  }

  /** No time elapses between a timestamp and itself. */
  lemma ElapsedTimeSelf(ms: DateParser, a: Timestamp)
    ensures GetElapsedTime(ms, a, a) == 0
  {
  }

  /** Elapsed times chain: a to b, then b to c, is a to c. */
  lemma ElapsedTimeChains(ms: DateParser, a: Timestamp, b: Timestamp, c: Timestamp)
    ensures GetElapsedTime(ms, a, b) + GetElapsedTime(ms, b, c) == GetElapsedTime(ms, a, c)
  {
  }

  /** `getDaysFromMs`: a millisecond count as (fractional) days. */
  function GetDaysFromMs(t: int): (days: real)
    ensures days * MsPerDay == t as real
    ensures t >= 0 ==> days >= 0.0
  {
    t as real / MsPerDay
  }

  /** `getElapsedTimeDays`: days, fractions kept, from `before` to `after`. */
  function GetElapsedTimeDays(ms: DateParser, before: Timestamp, after: Timestamp): (days: real)
    ensures days * MsPerDay == (ms(after) - ms(before)) as real
    ensures ms(before) <= ms(after) ==> days >= 0.0
  {
    GetDaysFromMs(GetElapsedTime(ms, before, after))
  }

  /** Swapping the two timestamps negates the elapsed days. */
  lemma ElapsedTimeDaysAntisymmetric(ms: DateParser, a: Timestamp, b: Timestamp)
    ensures GetElapsedTimeDays(ms, a, b) == -GetElapsedTimeDays(ms, b, a)
  {
  }

  /** `getArraySum`: `numArray.reduce(accumulator)` with no initial value.
      The first element seeds the fold and the rest are added left to
      right; on an empty array `reduce` throws a TypeError, so the array
      must be non-empty. */
  function GetArraySum(numArray: seq<real>): (sum: real)
    requires |numArray| > 0
    ensures sum == Total(numArray)
    decreases |numArray|
  {
    if |numArray| == 1 then numArray[0]
    else
      var init := numArray[..|numArray| - 1];
      var last := numArray[|numArray| - 1];
      assert numArray == init + [last];
      TotalConcat(init, [last]);
      GetArraySum(init) + last
  }

  /** The textbook sum: zero for the empty list, otherwise the head plus the
      sum of the tail. The reference `GetArraySum` is proved against. */
  function Total(s: seq<real>): real
  {
    if s == [] then 0.0 else s[0] + Total(s[1..])
  }

  lemma {:induction false} TotalConcat(a: seq<real>, b: seq<real>)
    ensures Total(a + b) == Total(a) + Total(b)
  {
    if a == [] {
      assert a + b == b;
    } else {
      assert (a + b)[1..] == a[1..] + b;
      TotalConcat(a[1..], b);
    }
  }

  /** A one-element array sums to its element. */
  lemma ArraySumSingleton(x: real)
    ensures GetArraySum([x]) == x
  {
  }

  /** The sum of a concatenation is the sum of its parts. */
  lemma ArraySumConcat(a: seq<real>, b: seq<real>)
    requires |a| > 0 && |b| > 0
    ensures GetArraySum(a + b) == GetArraySum(a) + GetArraySum(b)
  {
    TotalConcat(a, b);
  }

  /** `getArrayMean`: the sum divided by the length; non-empty for the
      same reason as the sum. */
  function GetArrayMean(numArray: seq<real>): (mean: real)
    requires |numArray| > 0
    ensures mean * (|numArray| as real) == GetArraySum(numArray)
  {
    GetArraySum(numArray) / (|numArray| as real)
  }

  lemma {:induction false} ArraySumBounds(s: seq<real>, lo: real, hi: real)
    requires |s| > 0
    requires forall i :: 0 <= i < |s| ==> lo <= s[i] <= hi
    ensures (|s| as real) * lo <= GetArraySum(s) <= (|s| as real) * hi
  {
    if |s| > 1 {
      ArraySumBounds(s[..|s| - 1], lo, hi);
      assert (|s| as real) * lo == ((|s| - 1) as real) * lo + lo;
      assert (|s| as real) * hi == ((|s| - 1) as real) * hi + hi;
    }
  }

  /** The mean lies between any lower and upper bound of the elements. */
  lemma ArrayMeanBounds(s: seq<real>, lo: real, hi: real)
    requires |s| > 0
    requires forall i :: 0 <= i < |s| ==> lo <= s[i] <= hi
    ensures lo <= GetArrayMean(s) <= hi
  {
    ArraySumBounds(s, lo, hi);
  }

  /** `Array.prototype.indexOf`: the first index holding `x`, or -1. */
  function IndexOf<T(==)>(s: seq<T>, x: T): (k: int)
    ensures -1 <= k < |s|
    ensures k == -1 <==> x !in s
    ensures 0 <= k ==> s[k] == x && forall j :: 0 <= j < k ==> s[j] != x
  {
    if s == [] then -1
    else if s[0] == x then 0
    else
      var k := IndexOf(s[1..], x);
      if k == -1 then -1 else k + 1
  }

  /** `isUniqueElement`: the element at `index` is the first occurrence of its value. */
  predicate IsUniqueElement<T(==)>(value: T, index: int, self: seq<T>)
    ensures IsUniqueElement(value, index, self) <==>
      (index == -1 && value !in self) ||
      (0 <= index < |self| && self[index] == value && forall j :: 0 <= j < index ==> self[j] != value)
  {
    IndexOf(self, value) == index
  }

  /** `rawArray.filter(isUniqueElement)` run over the first `n` elements:
      the first occurrence of each value in `rawArray[..n]`, in order. */
  function UniqueElementsUpTo<T(==,!new)>(rawArray: seq<T>, n: nat): (r: seq<T>)
    requires n <= |rawArray|
    ensures forall x :: x in r <==> x in rawArray[..n]
    ensures forall i :: 0 <= i < |r| ==> 0 <= IndexOf(rawArray, r[i]) < n
    ensures forall i, j :: 0 <= i < j < |r| ==> IndexOf(rawArray, r[i]) < IndexOf(rawArray, r[j])
  {
    if n == 0 then []
    else
      var prefix := UniqueElementsUpTo(rawArray, n - 1);
      var x := rawArray[n - 1];
      assert rawArray[..n] == rawArray[..n - 1] + [x];
      if IsUniqueElement(x, n - 1, rawArray) then prefix + [x]
      else
        assert x in rawArray[..n - 1] by {
          var k := IndexOf(rawArray, x);
          assert 0 <= k < n - 1 && rawArray[k] == x;
          assert rawArray[..n - 1][k] == x;
        }
        prefix
  }

  /** `getUniqueElements`: keeps the first occurrence of each value, in the
      original order. No value repeats, and the values are those of the input. */
  function GetUniqueElements<T(==,!new)>(rawArray: seq<T>): (r: seq<T>)
    ensures forall x :: x in r <==> x in rawArray
    ensures forall i, j :: 0 <= i < j < |r| ==> r[i] != r[j]
    ensures forall i, j :: 0 <= i < j < |r| ==> IndexOf(rawArray, r[i]) < IndexOf(rawArray, r[j])
    ensures |r| <= |rawArray|
  {
    assert rawArray[..|rawArray|] == rawArray;
    var r := UniqueElementsUpTo(rawArray, |rawArray|);
    NoDuplicatesFitIn(r, rawArray);
    r
  }

  /** A list without repeats whose values all occur in `s` is no longer than `s`. */
  lemma NoDuplicatesFitIn<T>(r: seq<T>, s: seq<T>)
    requires forall i, j :: 0 <= i < j < |r| ==> r[i] != r[j]
    requires forall x :: x in r ==> x in s
    ensures |r| <= |s|
  {
    DistinctCardinality(r);
    var a, b := set x | x in r, set x | x in s;
    assert b == a + (b - a);
    assert a !! (b - a);
    SetOfSeqCardinality(s);
  }

  /** The values of a list without repeats are as many as its elements. */
  lemma {:induction false} DistinctCardinality<T>(r: seq<T>)
    requires forall i, j :: 0 <= i < j < |r| ==> r[i] != r[j]
    ensures |set x | x in r| == |r|
  {
    if r != [] {
      var tail := r[1..];
      DistinctCardinality(tail);
      assert (set x | x in r) == {r[0]} + (set x | x in tail);
      assert r[0] !in tail;
    }
  }

  /** A list has at most as many distinct values as elements. */
  lemma {:induction false} SetOfSeqCardinality<T>(s: seq<T>)
    ensures |set x | x in s| <= |s|
  {
    if s != [] {
      SetOfSeqCardinality(s[1..]);
      assert (set x | x in s) == {s[0]} + (set x | x in s[1..]);
    }
  }

  /** What `getElementCounts` computes: each value of the input mapped to
      its number of occurrences. */
  ghost function Occurrences<T>(s: seq<T>): map<T, nat>
  {
    map x | x in s :: multiset(s)[x]
  }

  /** `getElementCounts`: `rawArray.reduce(counter, {})`, where `counter`
      updates the dictionary in place, `counts[current] = (counts[current] || 0) + 1`. */
  method GetElementCounts<T(==)>(rawArray: seq<T>) returns (counts: map<T, nat>)
    ensures counts.Keys == set x | x in rawArray
    ensures forall x :: x in counts ==> counts[x] == multiset(rawArray)[x]
    ensures counts == Occurrences(rawArray)
  {
    counts := map[];
    var i := 0;
    while i < |rawArray|
      invariant 0 <= i <= |rawArray|
      invariant counts.Keys == set x | x in rawArray[..i]
      invariant forall x :: x in counts ==> counts[x] == multiset(rawArray[..i])[x]
    {
      var current := rawArray[i];
      assert rawArray[..i + 1] == rawArray[..i] + [current];
      counts := counts[current := (if current in counts then counts[current] else 0) + 1];
      i := i + 1;
    }
    assert rawArray[..i] == rawArray;
  }

  /** Sum of the counts of `keys`, each taken from the multiset `m`. */
  ghost function SumOfCounts<T>(keys: seq<T>, m: multiset<T>): nat
  {
    if keys == [] then 0 else m[keys[0]] + SumOfCounts(keys[1..], m)
  }

  lemma {:induction false} SumOfCountsAdd<T>(keys: seq<T>, m: multiset<T>, x: T)
    requires forall i, j :: 0 <= i < j < |keys| ==> keys[i] != keys[j]
    ensures SumOfCounts(keys, m + multiset{x}) == SumOfCounts(keys, m) + if x in keys then 1 else 0
  {
    if keys != [] {
      SumOfCountsAdd(keys[1..], m, x);
      assert x in keys <==> x == keys[0] || x in keys[1..];
      assert keys[0] !in keys[1..];
    }
  }

  /** Over a list of distinct keys covering `s`, the counts add up to |s|. */
  lemma {:induction false} SumOfCountsCovers<T>(keys: seq<T>, s: seq<T>)
    requires forall i, j :: 0 <= i < j < |keys| ==> keys[i] != keys[j]
    requires forall x :: x in s ==> x in keys
    ensures SumOfCounts(keys, multiset(s)) == |s|
  {
    if s == [] {
      SumOfCountsEmpty(keys);
    } else {
      var init, last := s[..|s| - 1], s[|s| - 1];
      assert s == init + [last];
      SumOfCountsCovers(keys, init);
      SumOfCountsAdd(keys, multiset(init), last);
    }
  }

  lemma {:induction false} SumOfCountsEmpty<T>(keys: seq<T>)
    ensures SumOfCounts(keys, multiset{}) == 0
  {
    if keys != [] {
      SumOfCountsEmpty(keys[1..]);
    }
  }

  /** The counts of `getElementCounts`, read off key by key in the order of
      `getUniqueElements`, add up to the input length. */
  lemma ElementCountsSumToLength<T(!new)>(s: seq<T>)
    ensures forall x :: x in GetUniqueElements(s) ==> x in Occurrences(s)
    ensures SumOfCounts(GetUniqueElements(s), multiset(s)) == |s|
  {
    SumOfCountsCovers(GetUniqueElements(s), s);
  }

  /** `getElementCounts` has one key per element of `getUniqueElements`. */
  lemma ElementCountsKeysMatchUnique<T(!new)>(s: seq<T>)
    ensures |Occurrences(s).Keys| == |GetUniqueElements(s)|
  {
    var u := GetUniqueElements(s);
    DistinctCardinality(u);
    assert Occurrences(s).Keys == set x | x in u;
  }
}
