/**
 * The exclusion-aware integer picker of utils/get-random-integer.ts.
 *
 * The picker lists the integers of [from, to) in increasing order, drops the
 * ones listed in `without`, and reads the element at index
 * floor(Math.random() * length) of what is left; that read is `undefined`
 * when nothing is left.  The random number is a parameter here: an exact
 * fraction in [0, 1).
 */
module RandomInteger {
  import opened Wrappers

  /** The fraction num / den. */
  datatype Fraction = Fraction(num: nat, den: nat)

  /** A value Math.random() can return: a fraction in [0, 1). */
  type Random = u: Fraction | u.num < u.den witness Fraction(0, 1)

  predicate Increasing(s: seq<int>)
  {
    forall i, j :: 0 <= i < j < |s| ==> s[i] < s[j]
  }

  /** `Array(length).fill(null).map((_, index) => f(index))`: f(0), ..., f(length - 1). */
  function MapIndices(length: nat, f: int -> int): (r: seq<int>)
    ensures |r| == length
  {
    if length == 0 then [] else MapIndices(length - 1, f) + [f(length - 1)]
  }

  /** Position `index` of the mapped array holds `f(index)`. */
  lemma {:induction false} MapIndicesAt(length: nat, f: int -> int, index: int)
    requires 0 <= index < length
    ensures MapIndices(length, f)[index] == f(index)
  {
    if index < length - 1 {
      MapIndicesAt(length - 1, f, index);
    }
  }

  /**
   * `Array(to - from).fill(null).map((_, index) => index + from)`, with `lo`
   * for `from` and `hi` for `to`.
   */
  function Range(lo: int, hi: int): (r: seq<int>)
    requires lo <= hi
    ensures |r| == hi - lo
  {
    MapIndices(hi - lo, index => index + lo)
  }

  /** Position `index` of the range holds `index + lo`. */
  lemma RangeAt(lo: int, hi: int, index: int)
    requires 0 <= index < hi - lo
    ensures Range(lo, hi)[index] == index + lo
  {
    MapIndicesAt(hi - lo, index => index + lo, index);
  }

  /** The range holds exactly the integers of [lo, hi). */
  lemma RangeMembers(lo: int, hi: int)
    requires lo <= hi
    ensures forall x :: x in Range(lo, hi) <==> lo <= x < hi
  {
    var r := Range(lo, hi);
    forall x | lo <= x < hi ensures x in r {
      RangeAt(lo, hi, x - lo);
    }
    forall x | x in r ensures lo <= x < hi {
      var index :| 0 <= index < |r| && r[index] == x;
      RangeAt(lo, hi, index);
    }
  }

  /** `s.filter(keep)`: the elements `keep` accepts, in their order. */
  function Filter(s: seq<int>, keep: int -> bool): (r: seq<int>)
    ensures |r| <= |s|
  {
    if s == [] then []
    else (if keep(s[0]) then [s[0]] else []) + Filter(s[1..], keep)
  }

  /** The filter keeps exactly the elements `keep` accepts. */
  lemma {:induction false} FilterMembers(s: seq<int>, keep: int -> bool)
    ensures forall x :: x in Filter(s, keep) <==> x in s && keep(x)
  {
    if s != [] {
      FilterMembers(s[1..], keep);
      assert s == [s[0]] + s[1..];
    }
  }

  lemma {:induction false} FilterIncreasing(s: seq<int>, keep: int -> bool)
    requires Increasing(s)
    ensures Increasing(Filter(s, keep))
  {
    if s != [] {
      var tail := Filter(s[1..], keep);
      assert Increasing(s[1..]);
      FilterIncreasing(s[1..], keep);
      FilterMembers(s[1..], keep);
      forall x | x in tail ensures s[0] < x {
        var j :| 0 <= j < |s[1..]| && s[1..][j] == x;
        assert s[j + 1] == x;
      }
      var r := Filter(s, keep);
      if keep(s[0]) {
        assert r == [s[0]] + tail;
        forall i, j | 0 <= i < j < |r| ensures r[i] < r[j] {
          assert r[j] == tail[j - 1] && tail[j - 1] in tail;
          if i > 0 {
            assert r[i] == tail[i - 1];
          }
        }
      }
    }
  }

  /** The elements of `s` that `keep` rejects, each counted once. */
  function Rejected(s: seq<int>, keep: int -> bool): set<int>
  {
    set x | x in s && !keep(x)
  }

  lemma {:induction false} FilterSize(s: seq<int>, keep: int -> bool)
    requires Increasing(s)
    ensures |Filter(s, keep)| == |s| - |Rejected(s, keep)|
  {
    if s != [] {
      var h, t := s[0], s[1..];
      assert s == [h] + t;
      assert Increasing(t);
      FilterSize(t, keep);
      assert h !in t;
      var all, rest := Rejected(s, keep), Rejected(t, keep);
      if keep(h) {
        assert all == rest;
        assert Filter(s, keep) == [h] + Filter(t, keep);
      } else {
        assert all == rest + {h};
        assert Filter(s, keep) == Filter(t, keep);
      }
    }
  }

  /** The filter callback: keeps the numbers `without` does not include. */
  function Allowed(without: seq<int>): int -> bool
  {
    number => number !in without
  }

  /** The candidates: the integers of [lo, hi) that are not in `without`. */
  function Pool(lo: int, hi: int, without: seq<int>): (r: seq<int>)
    requires lo <= hi
    ensures forall x :: x in r <==> lo <= x < hi && x !in without
  {
    RangeMembers(lo, hi);
    FilterMembers(Range(lo, hi), Allowed(without));
    Filter(Range(lo, hi), Allowed(without))
  }

  lemma RangeIncreasing(lo: int, hi: int)
    requires lo <= hi
    ensures Increasing(Range(lo, hi))
  {
    var r := Range(lo, hi);
    forall i, j | 0 <= i < j < |r| ensures r[i] < r[j] {
      RangeAt(lo, hi, i);
      RangeAt(lo, hi, j);
    }
  }

  /** The candidates come in increasing order. */
  lemma PoolIncreasing(lo: int, hi: int, without: seq<int>)
    requires lo <= hi
    ensures Increasing(Pool(lo, hi, without))
  {
    RangeIncreasing(lo, hi);
    FilterIncreasing(Range(lo, hi), Allowed(without));
  }

  /** The pool loses exactly the distinct values of `without` lying in [lo, hi). */
  lemma PoolSize(lo: int, hi: int, without: seq<int>)
    requires lo <= hi
    ensures |Pool(lo, hi, without)| == (hi - lo) - |set x | x in without && lo <= x < hi|
  {
    RangeIncreasing(lo, hi);
    FilterSize(Range(lo, hi), Allowed(without));
    RangeMembers(lo, hi);
    var rejected, outside := Rejected(Range(lo, hi), Allowed(without)), set x | x in without && lo <= x < hi;
    forall x ensures x in rejected <==> x in outside {
      assert !Allowed(without)(x) <==> x in without;
    }
    assert rejected == outside;
  }

  lemma MulMonotone(d: nat, a: int, b: int)
    ensures a <= b ==> d * a <= d * b
  {
  }

  lemma ScaledBelow(u: Random, len: nat)
    ensures len > 0 ==> (u.num * len) / u.den < len
  {
    if len > 0 {
      var q := (u.num * len) / u.den;
      assert u.den * q <= u.num * len;
      assert u.num * len < u.den * len;
      MulMonotone(u.den, len, q);
    }
  }

  /** `Math.floor(u * len)`: an index of a list of length `len`, and 0 for an empty one. */
  function ChoiceIndex(u: Random, len: nat): (k: nat)
    ensures len > 0 ==> k < len
    ensures len == 0 ==> k == 0
  {
    ScaledBelow(u, len);
    (u.num * len) / u.den
  }

  /** The fraction k / len draws index k. */
  lemma ChoiceIndexReaches(k: nat, len: nat)
    requires k < len
    ensures ChoiceIndex(Fraction(k, len), len) == k
  {
    var q := (k * len) / len;
    assert len * (k - q) == k * len - len * q;
    MulMonotone(len, 1, k - q);
    MulMonotone(len, k - q, -1);
  }

  /**
   * `getRandomInteger(lo, hi, without)` when Math.random() returns u:
   * undefined exactly when every integer of [lo, hi) is excluded, and
   * otherwise an integer of [lo, hi) that is not excluded.
   */
  function GetRandomInteger(lo: int, hi: int, without: seq<int>, u: Random): (r: Option<int>)
    requires lo <= hi
    ensures r == None <==> forall x :: lo <= x < hi ==> x in without
    ensures r.Some? ==> lo <= r.value < hi && r.value !in without
  {
    var allowed := Pool(lo, hi, without);
    var k := ChoiceIndex(u, |allowed|);
    if k < |allowed| then
      assert allowed[k] in allowed;
      Some(allowed[k])
    else
      assert forall x :: lo <= x < hi ==> x in without || x in allowed;
      None
  }

  /** The draw k / |pool| returns the candidate at position k. */
  lemma PickAt(lo: int, hi: int, without: seq<int>, k: nat)
    requires lo <= hi && k < |Pool(lo, hi, without)|
    ensures GetRandomInteger(lo, hi, without, Fraction(k, |Pool(lo, hi, without)|)) == Some(Pool(lo, hi, without)[k])
  {
    ChoiceIndexReaches(k, |Pool(lo, hi, without)|);
  }

  /** Every candidate is the result of some draw. */
  lemma EveryCandidateReachable(lo: int, hi: int, without: seq<int>, x: int) returns (u: Random)
    requires lo <= x < hi && x !in without
    ensures GetRandomInteger(lo, hi, without, u) == Some(x)
  {
    var allowed := Pool(lo, hi, without);
    var k :| 0 <= k < |allowed| && allowed[k] == x;
    PickAt(lo, hi, without, k);
    u := Fraction(k, |allowed|);
  }

  /**
   * Excluding the current index `current` of a table of `size` entries: the
   * result is another index of the table, and undefined when there is none.
   */
  lemma ExcludeCurrent(size: nat, current: int, u: Random)
    requires 0 <= current < size
    ensures size >= 2 ==>
      GetRandomInteger(0, size, [current], u).Some? && GetRandomInteger(0, size, [current], u).value != current
    ensures size == 1 ==> GetRandomInteger(0, size, [current], u) == None
  {
    if size >= 2 {
      var other := if current == 0 then 1 else 0;
      assert other !in [current];
    } else {
      assert forall x :: 0 <= x < size ==> x in [current] by {
        forall x | 0 <= x < size ensures x in [current] {
          assert x == current;
        }
      }
    }
  }

  /** With the default `without = []` a non-empty range always yields an integer. */
  lemma DefaultWithoutDefined(lo: int, hi: int, u: Random)
    requires lo < hi
    ensures GetRandomInteger(lo, hi, [], u).Some?
    ensures lo <= GetRandomInteger(lo, hi, [], u).value < hi
  {
    assert lo !in [];
  }
}
