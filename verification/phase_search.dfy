/** `find_highest` of days 7 and 9: four nested loops pick the phases
    a, b, c, d among 0..4 (each skipping the ones taken by the loops
    outside it), the fifth phase is the one left over, and the feedback
    circuit runs on the phases shifted up by 5; the largest signal wins.
    The search is specified by the list of orderings the loops visit
    (`Orderings`, with `Level` for one loop) and the running maximum over
    it (`Best`); the method runs the loop of each depth in `Pick`, one
    call per depth. */
module PhaseSearch {
  import opened Wrappers
  import opened IntcodeTypes
  import opened Amplifiers

  /** Phases chosen so far: distinct values in 0..4, each new one taken
      from those the outer loops left. */
  predicate Chosen(used: seq<int>)
    decreases |used|
  {
    used == [] || (Chosen(Init(used)) && 0 <= Last(used) < 5 && Last(used) !in Init(used))
  }

  function Init(used: seq<int>): (r: seq<int>)
    requires used != []
    ensures |r| == |used| - 1
  {
    used[..|used| - 1]
  }

  /** The values of `n..5` the outer loops have not taken, ascending. */
  function Free(used: seq<int>, n: nat): (r: seq<int>)
    requires n <= 5
    decreases 5 - n
  {
    if n == 5 then [] else (if n in used then [] else [n]) + Free(used, n + 1)
  }

  /** A value of `n..5` is free exactly when no loop has taken it. */
  lemma {:induction false} FreeMembers(used: seq<int>, n: nat, x: int)
    requires n <= 5
    ensures x in Free(used, n) <==> n <= x < 5 && x !in used
    decreases 5 - n
  {
    if n < 5 {
      FreeMembers(used, n + 1, x);
    }
  }

  /** Taking one more free value shrinks the free list by exactly one. */
  lemma {:induction false} FreeTake(used: seq<int>, x: int, n: nat)
    requires n <= 5 && 0 <= x < 5 && x !in used
    ensures |Free(used + [x], n)| == |Free(used, n)| - (if n <= x then 1 else 0)
    decreases 5 - n
  {
    if n < 5 {
      FreeTake(used, x, n + 1);
      assert (n in used + [x]) <==> (n in used || n == x);
    }
  }

  /** Exactly 5 - |used| values are left. */
  lemma {:induction false} FreeCount(used: seq<int>)
    requires Chosen(used)
    ensures |Free(used, 0)| == 5 - |used|
    decreases |used|
  {
    if used == [] {
      assert Free([], 0) == [0, 1, 2, 3, 4];
    } else {
      var init := Init(used);
      assert init + [Last(used)] == used;
      FreeCount(init);
      FreeTake(init, Last(used), 0);
    }
  }

  /** The orderings the loops visit once the outer loops have chosen
      `used`. With four phases chosen, the fifth is the first free one
      (`find`; `FreeCount` shows there always is one, so the empty case is
      never taken). */
  function Orderings(used: seq<int>): seq<seq<int>>
    requires |used| <= 4
    decreases 4 - |used|, 6
  {
    if |used| == 4 then
      var free := Free(used, 0);
      if free == [] then [] else [used + [free[0]]]
    else Level(used, 0)
  }

  /** The loop at depth `|used|` from candidate `n` on: each value not taken
      by an outer loop, then every ordering below it. */
  function Level(used: seq<int>, n: nat): seq<seq<int>>
    requires |used| < 4 && n <= 5
    decreases 4 - |used|, 5 - n
  {
    if n == 5 then []
    else if n in used then Level(used, n + 1)
    else Orderings(used + [n]) + Level(used, n + 1)
  }

  /** The phases the circuit runs on: each ordering shifted up by 5. */
  function Shifted(o: seq<int>): seq<int>
  {
    seq(|o|, k requires 0 <= k < |o| => o[k] + 5)
  }

  /** The running maximum `max_val` over `orderings`, from `max` on; the
      first failing circuit fails the search. */
  function Best(v: Version, program: seq<int>, orderings: seq<seq<int>>, fuel: nat, max: int): Result<int, Fault>
    decreases |orderings|
  {
    if orderings == [] then Ok(max)
    else
      var x :- FeedbackResult(v, program, Shifted(orderings[0]), fuel);
      Best(v, program, orderings[1..], fuel, if max < x then x else max)
  }

  /** `find_highest`: the running maximum from 0 over every ordering. */
  function Highest(v: Version, program: seq<int>, fuel: nat): Result<int, Fault>
  {
    Best(v, program, Orderings([]), fuel, 0)
  }

  /** Folding over two lists is folding over the first, then over the second
      from where the first left off. */
  lemma {:induction false} BestAppend(v: Version, program: seq<int>, a: seq<seq<int>>, b: seq<seq<int>>, fuel: nat, max: int)
    ensures Best(v, program, a, fuel, max).Err? ==> Best(v, program, a + b, fuel, max) == Best(v, program, a, fuel, max)
    ensures Best(v, program, a, fuel, max).Ok? ==>
              Best(v, program, a + b, fuel, max) == Best(v, program, b, fuel, Best(v, program, a, fuel, max).value)
    decreases |a|
  {
    if a == [] {
      assert a + b == b;
    } else {
      assert (a + b)[1..] == a[1..] + b;
      var x := FeedbackResult(v, program, Shifted(a[0]), fuel);
      if x.Ok? {
        BestAppend(v, program, a[1..], b, fuel, if max < x.value then x.value else max);
      }
    }
  }

  /** A loop taking the free value `n` first runs every ordering below it,
      then goes on with `n + 1`. */
  lemma Descend(v: Version, program: seq<int>, used: seq<int>, n: nat, fuel: nat, max: int)
    requires |used| < 4 && n < 5 && n !in used
    ensures var inner := Best(v, program, Orderings(used + [n]), fuel, max);
            && (inner.Err? ==> Best(v, program, Level(used, n), fuel, max) == inner)
            && (inner.Ok? ==> Best(v, program, Level(used, n), fuel, max)
                               == Best(v, program, Level(used, n + 1), fuel, inner.value))
  {
    BestAppend(v, program, Orderings(used + [n]), Level(used, n + 1), fuel, max);
  }

  /** The innermost loop: with four phases chosen there is the one ordering
      completed by the free phase. */
  lemma Leaf(v: Version, program: seq<int>, used: seq<int>, fuel: nat, max: int)
    requires Chosen(used) && |used| == 4
    ensures |Free(used, 0)| == 1
    ensures var x := FeedbackResult(v, program, Shifted(used + [Free(used, 0)[0]]), fuel);
            && (x.Err? ==> Best(v, program, Orderings(used), fuel, max) == Err(x.error))
            && (x.Ok? ==> Best(v, program, Orderings(used), fuel, max) == Ok(if max < x.value then x.value else max))
  {
    FreeCount(used);
    var o := used + [Free(used, 0)[0]];
    assert Orderings(used) == [o];
    assert [o][1..] == [];
  }

  /** Taking a value no loop has taken keeps the choice valid. */
  lemma ChosenSnoc(used: seq<int>, x: int)
    requires Chosen(used) && 0 <= x < 5 && x !in used
    ensures Chosen(used + [x])
  {
    assert Init(used + [x]) == used;
  }

  /** The loop at depth `|used|` of `find_highest`: every phase of 0..4 the
      outer loops have not taken, in ascending order, and below it the
      deeper loops (or, at the fourth depth, the circuit run). */
  method Pick(v: Version, program: seq<int>, fuel: nat, used: seq<int>, max0: int) returns (r: Result<int, Fault>)
    requires Chosen(used) && |used| < 4
    ensures r == Best(v, program, Orderings(used), fuel, max0)
    decreases 4 - |used|
  {
    var max := max0;
    for n := 0 to 5
      invariant Best(v, program, Orderings(used), fuel, max0) == Best(v, program, Level(used, n), fuel, max)
    {
      if n !in used {
        var next := used + [n];
        ChosenSnoc(used, n);
        Descend(v, program, used, n, fuel, max);
        var inner;
        if |next| == 4 {
          inner := Circuit(v, program, fuel, next, max);
        } else {
          inner := Pick(v, program, fuel, next, max);
        }
        if inner.Err? {
          return inner;
        }
        max := inner.value;
      }
    }
    return Ok(max);
  }

  /** The innermost loop body: the fifth phase is the first one left
      (`find`), and the circuit's signal replaces the maximum when larger. */
  method Circuit(v: Version, program: seq<int>, fuel: nat, used: seq<int>, max: int) returns (r: Result<int, Fault>)
    requires Chosen(used) && |used| == 4
    ensures r == Best(v, program, Orderings(used), fuel, max)
  {
    var e := FirstFree(used);
    Leaf(v, program, used, fuel, max);
    var result := TrySequenceFeedback(v, program, Shifted(used + [e]), fuel);
    if result.Err? {
      return Err(result.error);
    }
    return Ok(if max < result.value then result.value else max);
  }

  /** With four phases taken one is left, and it was not taken. */
  lemma FreeHead(used: seq<int>)
    requires Chosen(used) && |used| == 4
    ensures |Free(used, 0)| == 1 && 0 <= Free(used, 0)[0] < 5 && Free(used, 0)[0] !in used
  {
    FreeCount(used);
    FreeMembers(used, 0, Free(used, 0)[0]);
  }

  /** `(0..5).find(...)`: the first phase the four loops have not taken;
      one is always left, so the `unwrap` never fails. */
  method FirstFree(used: seq<int>) returns (e: int)
    requires Chosen(used) && |used| == 4
    ensures e == Free(used, 0)[0] && 0 <= e < 5 && e !in used
  {
    FreeHead(used);
    e := 0;
    while e in used
      invariant 0 <= e < 5 && Free(used, e) == Free(used, 0)
      decreases 5 - e
    {
      e := e + 1;
    }
  }

  /** `find_highest`: the search from no phase chosen and maximum 0. */
  method FindHighest(v: Version, program: seq<int>, fuel: nat) returns (r: Result<int, Fault>)
    ensures r == Highest(v, program, fuel)
  {
    r := Pick(v, program, fuel, [], 0);
  }

  /** n! */
  function Fact(n: nat): (r: nat)
    ensures r >= 1
  {
    if n == 0 then 1 else n * Fact(n - 1)
  }

  /** Below `used`, the loops visit (5 - |used|)! orderings, one per
      arrangement of the phases still free. */
  lemma {:induction false} OrderingsCount(used: seq<int>)
    requires Chosen(used) && |used| <= 4
    ensures |Orderings(used)| == Fact(5 - |used|)
    decreases 4 - |used|, 6
  {
    FreeCount(used);
    if |used| < 4 {
      LevelCount(used, 0);
      assert Fact(5 - |used|) == (5 - |used|) * Fact(4 - |used|);
    }
  }

  /** From candidate `n` on, one loop visits (4 - |used|)! orderings per
      value still free. */
  lemma {:induction false} LevelCount(used: seq<int>, n: nat)
    requires Chosen(used) && |used| < 4 && n <= 5
    ensures |Level(used, n)| == |Free(used, n)| * Fact(4 - |used|)
    decreases 4 - |used|, 5 - n
  {
    if n < 5 {
      LevelCount(used, n + 1);
      var rest := |Free(used, n + 1)|;
      if n in used {
        assert |Free(used, n)| == rest;
      } else {
        var next := used + [n];
        ChosenSnoc(used, n);
        OrderingsCount(next);
        assert |Level(used, n)| == |Orderings(next)| + |Level(used, n + 1)|;
        assert |Free(used, n)| == rest + 1;
        MulSucc(rest, Fact(4 - |used|));
      }
    }
  }

  /** The distributive step `LevelCount` needs; the solver does not find
      it among the nonlinear terms on its own. */
  lemma MulSucc(a: int, b: int)
    ensures (a + 1) * b == b + a * b
  {
  }

  /** A full ordering: five distinct phases of 0..4. */
  predicate Permutation(o: seq<int>)
  {
    |o| == 5 && Chosen(o)
  }

  /** A permutation holds every phase 0..4. */
  lemma PermutationCovers(o: seq<int>, x: int)
    requires Permutation(o) && 0 <= x < 5
    ensures x in o
  {
    FreeCount(o);
    FreeMembers(o, 0, x);
  }

  /** Every ordering visited below `used` extends `used` to a permutation. */
  lemma {:induction false} OrderingsShape(used: seq<int>)
    requires Chosen(used) && |used| <= 4
    ensures forall o :: o in Orderings(used) ==> Permutation(o) && o[..|used|] == used
    decreases 4 - |used|, 6
  {
    if |used| == 4 {
      FreeHead(used);
      var e := Free(used, 0)[0];
      ChosenSnoc(used, e);
      assert (used + [e])[..4] == used;
    } else {
      LevelShape(used, 0);
    }
  }

  /** From candidate `n` on, every ordering one loop visits extends `used`
      to a permutation whose next phase is at least `n`. */
  lemma {:induction false} LevelShape(used: seq<int>, n: nat)
    requires Chosen(used) && |used| < 4 && n <= 5
    ensures forall o :: o in Level(used, n) ==> Permutation(o) && o[..|used|] == used && n <= o[|used|]
    decreases 4 - |used|, 5 - n
  {
    if n < 5 {
      LevelShape(used, n + 1);
      if n !in used {
        var next := used + [n];
        ChosenSnoc(used, n);
        OrderingsShape(next);
        assert Level(used, n) == Orderings(next) + Level(used, n + 1);
        forall o | o in Orderings(next)
          ensures o[..|used|] == used && o[|used|] == n
        {
          assert o[..|used|] == o[..|next|][..|used|];
        }
      }
    }
  }

  /** No ordering is visited twice below `used`. */
  lemma {:induction false} OrderingsDistinct(used: seq<int>)
    requires Chosen(used) && |used| <= 4
    ensures forall j, k :: 0 <= j < k < |Orderings(used)| ==> Orderings(used)[j] != Orderings(used)[k]
    decreases 4 - |used|, 6
  {
    if |used| < 4 {
      LevelDistinct(used, 0);
    }
  }

  /** No ordering is visited twice by one loop from candidate `n` on. */
  lemma {:induction false} LevelDistinct(used: seq<int>, n: nat)
    requires Chosen(used) && |used| < 4 && n <= 5
    ensures forall j, k :: 0 <= j < k < |Level(used, n)| ==> Level(used, n)[j] != Level(used, n)[k]
    decreases 4 - |used|, 5 - n
  {
    if n < 5 {
      LevelDistinct(used, n + 1);
      if n !in used {
        var next := used + [n];
        ChosenSnoc(used, n);
        OrderingsDistinct(next);
        OrderingsShape(next);
        LevelShape(used, n + 1);
        var left, right := Orderings(next), Level(used, n + 1);
        assert Level(used, n) == left + right;
        forall j, k | 0 <= j < k < |left + right|
          ensures (left + right)[j] != (left + right)[k]
        {
          if j < |left| <= k {
            var p, q := left[j], right[k - |left|];
            assert p in left && q in right;
            assert p[..|next|] == next;
            assert p[|used|] == n < q[|used|];
          }
        }
      }
    }
  }

  /** Each phase of a valid choice is in 0..4 and differs from the ones
      before it, and every prefix is a valid choice too. */
  lemma {:induction false} ChosenPrefix(o: seq<int>, k: nat)
    requires Chosen(o) && k < |o|
    ensures Chosen(o[..k]) && 0 <= o[k] < 5 && o[k] !in o[..k]
    decreases |o|
  {
    var init := Init(o);
    if k < |init| {
      ChosenPrefix(init, k);
      assert init[..k] == o[..k];
    }
  }

  /** Every permutation extending `used` is visited below `used`. */
  lemma {:induction false} VisitsEvery(used: seq<int>, o: seq<int>)
    requires Chosen(used) && |used| <= 4 && Permutation(o) && o[..|used|] == used
    ensures o in Orderings(used)
    decreases 4 - |used|, 6
  {
    ChosenPrefix(o, |used|);
    if |used| == 4 {
      var x := o[4];
      FreeCount(used);
      FreeMembers(used, 0, x);
      assert o == used + [x];
    } else {
      LevelVisits(used, 0, o);
    }
  }

  /** From candidate `n` on, one loop visits every permutation extending
      `used` whose next phase is at least `n`. */
  lemma {:induction false} LevelVisits(used: seq<int>, n: nat, o: seq<int>)
    requires Chosen(used) && |used| < 4 && n <= 5 && Permutation(o) && o[..|used|] == used && n <= o[|used|]
    ensures o in Level(used, n)
    decreases 4 - |used|, 5 - n
  {
    ChosenPrefix(o, |used|);
    var x := o[|used|];
    if n == x {
      var next := used + [n];
      assert o[..|next|] == next;
      ChosenSnoc(used, n);
      VisitsEvery(next, o);
    } else {
      LevelVisits(used, n + 1, o);
    }
  }

  /** The loops visit every permutation of 0..4 exactly once: the 120
      orderings visited are distinct permutations, and every permutation is
      among them. */
  lemma HighestVisitsPermutations()
    ensures |Orderings([])| == 120
    ensures forall o :: o in Orderings([]) <==> Permutation(o)
    ensures forall j, k :: 0 <= j < k < |Orderings([])| ==> Orderings([])[j] != Orderings([])[k]
  {
    OrderingsCount([]);
    OrderingsShape([]);
    OrderingsDistinct([]);
    forall o | Permutation(o)
      ensures o in Orderings([])
    {
      VisitsEvery([], o);
    }
  }
  /** A successful search returns the largest of the starting maximum and
      every circuit's signal, and that value is one of them. */
  lemma {:induction false} BestIsMaximum(v: Version, program: seq<int>, orderings: seq<seq<int>>, fuel: nat, max: int)
    requires Best(v, program, orderings, fuel, max).Ok?
    ensures var m := Best(v, program, orderings, fuel, max).value;
            && m >= max
            && (forall k :: 0 <= k < |orderings| ==>
                  FeedbackResult(v, program, Shifted(orderings[k]), fuel).Ok?
                  && FeedbackResult(v, program, Shifted(orderings[k]), fuel).value <= m)
            && (m == max || exists k :: 0 <= k < |orderings| && FeedbackResult(v, program, Shifted(orderings[k]), fuel) == Ok(m))
    decreases |orderings|
  {
    if orderings != [] {
      var x := FeedbackResult(v, program, Shifted(orderings[0]), fuel).value;
      var next := if max < x then x else max;
      BestIsMaximum(v, program, orderings[1..], fuel, next);
      var m := Best(v, program, orderings, fuel, max).value;
      forall k | 0 <= k < |orderings|
        ensures FeedbackResult(v, program, Shifted(orderings[k]), fuel).Ok?
        ensures FeedbackResult(v, program, Shifted(orderings[k]), fuel).value <= m
      {
        if k > 0 {
          assert orderings[k] == orderings[1..][k - 1];
        }
      }
      if m != next {
        var k :| 0 <= k < |orderings[1..]| && FeedbackResult(v, program, Shifted(orderings[1..][k]), fuel) == Ok(m);
        assert orderings[1..][k] == orderings[k + 1];
      } else if m != max {
        assert FeedbackResult(v, program, Shifted(orderings[0]), fuel) == Ok(m);
      }
    }
  }

  /** The first failing circuit fails the whole search with its fault. */
  lemma {:induction false} BestFails(v: Version, program: seq<int>, orderings: seq<seq<int>>, fuel: nat, max: int)
    requires Best(v, program, orderings, fuel, max).Err?
    ensures exists k :: 0 <= k < |orderings| &&
              FeedbackResult(v, program, Shifted(orderings[k]), fuel) == Err(Best(v, program, orderings, fuel, max).error)
    decreases |orderings|
  {
    var x := FeedbackResult(v, program, Shifted(orderings[0]), fuel);
    if x.Ok? {
      BestFails(v, program, orderings[1..], fuel, if max < x.value then x.value else max);
      var k :| 0 <= k < |orderings[1..]| &&
               FeedbackResult(v, program, Shifted(orderings[1..][k]), fuel) == Err(Best(v, program, orderings, fuel, max).error);
      assert orderings[1..][k] == orderings[k + 1];
    }
  }

  /** `find_highest`'s result is at least 0 and at least the signal of every
      permutation's circuit, and is 0 or one of those signals. */
  lemma HighestIsMaximum(v: Version, program: seq<int>, fuel: nat)
    requires Highest(v, program, fuel).Ok?
    ensures var m := Highest(v, program, fuel).value;
            && m >= 0
            && (forall o :: Permutation(o) ==>
                  FeedbackResult(v, program, Shifted(o), fuel).Ok? && FeedbackResult(v, program, Shifted(o), fuel).value <= m)
            && (m == 0 || exists o :: Permutation(o) && FeedbackResult(v, program, Shifted(o), fuel) == Ok(m))
  {
    var os := Orderings([]);
    BestIsMaximum(v, program, os, fuel, 0);
    HighestVisitsPermutations();
    var m := Highest(v, program, fuel).value;
    if m != 0 {
      var k :| 0 <= k < |os| && FeedbackResult(v, program, Shifted(os[k]), fuel) == Ok(m);
      assert os[k] in os;
    }
  }
}
