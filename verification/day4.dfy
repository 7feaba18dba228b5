/** Day 4: the password rule. A password is the decimal text of a number;
    it is valid when some digit appears as a pair that is not part of a
    longer run and the digits never decrease from left to right. Digits
    are compared as values here; the source compares their ASCII bytes,
    which are ordered the same way. */
module Day4 {
  import opened Wrappers
  import opened Decimal

  /** The window test of `has_double` on the four digits from `j`: the
      middle two are equal and differ from both neighbours. */
  predicate InnerPairAt(d: seq<int>, j: int)
  {
    0 <= j && j + 4 <= |d| && d[j + 1] == d[j + 2] && d[j] != d[j + 1] && d[j + 3] != d[j + 1]
  }

  /** The number of four-digit windows from `j` on that pass the test
      (`windows(4).filter(..).count()` when `j` is 0). */
  function InnerPairs(d: seq<int>, j: nat): nat
    decreases |d| - j
  {
    if j + 4 > |d| then 0 else (if InnerPairAt(d, j) then 1 else 0) + InnerPairs(d, j + 1)
  }

  /** The count is not zero exactly when some window passes. */
  lemma {:induction false} InnerPairsFound(d: seq<int>, j: nat)
    ensures InnerPairs(d, j) != 0 <==> exists k :: j <= k && InnerPairAt(d, k)
    decreases |d| - j
  {
    if j + 4 <= |d| {
      InnerPairsFound(d, j + 1);
      if k :| j <= k && InnerPairAt(d, k) {
        assert k == j || (j + 1 <= k && InnerPairAt(d, k));
      }
    }
  }

  /** `has_double`: an inner pair, or a pair at the front not followed by
      the same digit, or a pair at the end not preceded by it. The source
      indexes the third digit, so a one-digit password, or a two-digit one
      whose digits are equal, panics (None). */
  function HasDouble(d: seq<int>): (r: Option<bool>)
    requires |d| >= 1
    ensures r.None? <==> |d| == 1 || (|d| == 2 && d[0] == d[1])
  {
    if InnerPairs(d, 0) != 0 then Some(true)
    else if |d| < 2 then None
    else if d[0] == d[1] && |d| < 3 then None
    else if d[0] == d[1] && d[0] != d[2] then Some(true)
    else
      var n := |d|;
      if d[n - 1] != d[n - 2] then Some(false)
      else if n < 3 then None
      else Some(d[n - 1] != d[n - 3])
  }

  /** A run of equal digits of length exactly two starts at `i`. */
  predicate ExactPairAt(d: seq<int>, i: int)
  {
    && 0 <= i && i + 1 < |d|
    && d[i] == d[i + 1]
    && (i == 0 || d[i - 1] != d[i])
    && (i + 2 == |d| || d[i + 2] != d[i])
  }

  /** From three digits on, `has_double` holds exactly when some maximal run
      of equal digits has length two. */
  lemma HasDoubleIffExactPair(d: seq<int>)
    requires |d| >= 3
    ensures HasDouble(d) == Some(exists i :: ExactPairAt(d, i))
  {
    InnerPairsFound(d, 0);
    var n := |d|;
    if i :| ExactPairAt(d, i) {
      if 0 < i && i + 2 < n {
        assert InnerPairAt(d, i - 1);
      }
    }
    if k :| 0 <= k && InnerPairAt(d, k) {
      assert ExactPairAt(d, k + 1);
    }
    if d[0] == d[1] && d[0] != d[2] {
      assert ExactPairAt(d, 0);
    }
    if d[n - 1] == d[n - 2] && d[n - 1] != d[n - 3] {
      assert ExactPairAt(d, n - 2);
    }
  }

  /** `is_incr`: the `try_fold` that keeps the last digit and fails at the
      first smaller one, starting from 0. */
  predicate Rising(d: seq<int>, min: int)
    decreases |d|
  {
    d == [] || (min <= d[0] && Rising(d[1..], d[0]))
  }

  /** For digits, the fold succeeds exactly when no digit is smaller than
      one before it. */
  lemma {:induction false} RisingIffSorted(d: seq<int>, min: int)
    ensures Rising(d, min) <==>
              (forall i :: 0 <= i < |d| ==> min <= d[i]) &&
              (forall i, j :: 0 <= i < j < |d| ==> d[i] <= d[j])
    decreases |d|
  {
    if d != [] {
      RisingIffSorted(d[1..], d[0]);
      if Rising(d, min) {
        forall i, j | 0 <= i < j < |d|
          ensures d[i] <= d[j]
        {
          if i > 0 {
            assert d[1..][i - 1] == d[i] && d[1..][j - 1] == d[j];
          } else {
            assert d[1..][j - 1] == d[j];
          }
        }
        forall i | 0 <= i < |d|
          ensures min <= d[i]
        {
          if i > 0 {
            assert d[1..][i - 1] == d[i];
          }
        }
      }
      if (forall i :: 0 <= i < |d| ==> min <= d[i]) && (forall i, j :: 0 <= i < j < |d| ==> d[i] <= d[j]) {
        forall i | 0 <= i < |d[1..]|
          ensures d[0] <= d[1..][i]
        {
          assert d[1..][i] == d[i + 1];
        }
        forall i, j | 0 <= i < j < |d[1..]|
          ensures d[1..][i] <= d[1..][j]
        {
          assert d[1..][i] == d[i + 1] && d[1..][j] == d[j + 1];
        }
      }
    }
  }

  /** `is_valid`: `has_double && is_incr`, or None where the source panics. */
  function IsValid(pass: nat): (r: Option<bool>)
    ensures pass >= 100 ==> r.Some?
  {
    var d := Digits(pass);
    match HasDouble(d)
    case None => None
    case Some(double) => Some(double && Rising(d, 0))
  }

  /** A password of at least three digits is valid exactly when its digits
      never decrease and some digit forms a pair not inside a longer run. */
  lemma IsValidMeans(pass: nat)
    requires pass >= 100
    ensures var d := Digits(pass);
            IsValid(pass) == Some(
              (exists i :: ExactPairAt(d, i)) &&
              (forall i, j :: 0 <= i < j < |d| ==> d[i] <= d[j]))
  {
    var d := Digits(pass);
    HasDoubleIffExactPair(d);
    RisingIffSorted(d, 0);
  }

  /** The first asserted example: 112233 is valid (the pair 22). */
  lemma Example112233()
    ensures IsValid(112233) == Some(true)
  {
    Digits112233();
    var d := [1, 1, 2, 2, 3, 3];
    assert InnerPairAt(d, 1);
    assert InnerPairs(d, 1) != 0;
    assert Rising(d[6..], 3);
    assert Rising(d[5..], 3);
    assert Rising(d[4..], 2);
    assert Rising(d[3..], 2);
    assert Rising(d[2..], 1);
    assert Rising(d[1..], 1);
  }

  /** The second asserted example: 123444 is not valid (the only run of
      equal digits has length three). */
  lemma Example123444()
    ensures IsValid(123444) == Some(false)
  {
    Digits123444();
    var d := [1, 2, 3, 4, 4, 4];
    assert InnerPairs(d, 2) == 0;
    assert InnerPairs(d, 1) == 0;
    assert InnerPairs(d, 0) == 0;
  }

  /** The third asserted example: 111122 is valid (the pair 22 at the end,
      although the 1s form a run of four). */
  lemma Example111122()
    ensures IsValid(111122) == Some(true)
  {
    Digits111122();
    var d := [1, 1, 1, 1, 2, 2];
    assert InnerPairs(d, 2) == 0;
    assert InnerPairs(d, 1) == 0;
    assert InnerPairs(d, 0) == 0;
    assert Rising(d[6..], 2);
    assert Rising(d[5..], 2);
    assert Rising(d[4..], 1);
    assert Rising(d[3..], 1);
    assert Rising(d[2..], 1);
    assert Rising(d[1..], 1);
  }

  lemma Digits112233()
    ensures Digits(112233) == [1, 1, 2, 2, 3, 3]
  {
    assert Digits(1) == [1];
    assert Digits(11) == [1, 1];
    assert Digits(112) == [1, 1, 2];
    assert Digits(1122) == [1, 1, 2, 2];
    assert Digits(11223) == [1, 1, 2, 2, 3];
  }

  lemma Digits123444()
    ensures Digits(123444) == [1, 2, 3, 4, 4, 4]
  {
    assert Digits(1) == [1];
    assert Digits(12) == [1, 2];
    assert Digits(123) == [1, 2, 3];
    assert Digits(1234) == [1, 2, 3, 4];
    assert Digits(12344) == [1, 2, 3, 4, 4];
  }

  lemma Digits111122()
    ensures Digits(111122) == [1, 1, 1, 1, 2, 2]
  {
    assert Digits(1) == [1];
    assert Digits(11) == [1, 1];
    assert Digits(111) == [1, 1, 1];
    assert Digits(1111) == [1, 1, 1, 1];
    assert Digits(11112) == [1, 1, 1, 1, 2];
  }

  const Low: nat := 206938
  const High: nat := 679128

  /** The number of values in `lo..=hi` that `accept` keeps
      (`filter(...).count()`). */
  function CountWhere(lo: nat, hi: nat, accept: nat -> bool): nat
    decreases hi + 1 - lo
  {
    if lo > hi then 0 else (if accept(lo) then 1 else 0) + CountWhere(lo + 1, hi, accept)
  }

  /** The count is the size of the set of kept values in the range. */
  lemma {:induction false} CountWhereIsSize(lo: nat, hi: nat, accept: nat -> bool)
    ensures CountWhere(lo, hi, accept) == |set p: nat | lo <= p <= hi && accept(p)|
    decreases hi + 1 - lo
  {
    var all := set p: nat | lo <= p <= hi && accept(p);
    if lo > hi {
      assert all == {};
    } else {
      var rest := set p: nat | lo + 1 <= p <= hi && accept(p);
      CountWhereIsSize(lo + 1, hi, accept);
      if accept(lo) {
        assert all == rest + {lo};
      } else {
        assert all == rest;
      }
    }
  }

  /** The puzzle's answer: the number of valid passwords in
      206938..=679128, none of which makes the source panic. */
  function Answer(): (r: nat)
    ensures r == |set p: nat | Low <= p <= High && IsValid(p) == Some(true)|
  {
    var valid: nat -> bool := (p: nat) => IsValid(p) == Some(true);
    CountWhereIsSize(Low, High, valid);
    assert forall p: nat :: valid(p) == (IsValid(p) == Some(true));
    assert (set p: nat | Low <= p <= High && valid(p)) == (set p: nat | Low <= p <= High && IsValid(p) == Some(true));
    CountWhere(Low, High, valid)
  }
}
