/** The noun/verb search shared by days 2 and 5: `run_with_args` puts the
    noun and verb in cells 1 and 2, and `find_end_value` tries every pair
    of 0..99 in row-major order until a run ends with 19690720. */
module NounVerb {
  import opened Wrappers
  import opened IntcodeTypes

  /** The value `find_end_value` looks for. */
  const Goal: int := 19690720

  /** `p[1] = noun; p[2] = verb;` on a copy of the program; a program of
      fewer than three cells makes the indexing panic. */
  function SetArgs(noun: int, verb: int, p: seq<int>): (r: Result<seq<int>, Fault>)
    ensures r.Err? <==> |p| < 3
    ensures r.Ok? ==> |r.value| == |p| && r.value[1] == noun && r.value[2] == verb
    ensures r.Ok? ==> forall i :: 0 <= i < |p| && i != 1 && i != 2 ==> r.value[i] == p[i]
  {
    if |p| < 2 then Err(OutOfBounds(1))
    else if |p| < 3 then Err(OutOfBounds(2))
    else Ok(p[1 := noun][2 := verb])
  }

  /** Row-major order on (noun, verb) pairs. */
  predicate Precedes(n1: int, v1: int, n2: int, v2: int)
  {
    n1 < n2 || (n1 == n2 && v1 < v2)
  }

  /** The two nested loops from (noun, verb) on: the first pair whose run
      ends with `Goal`; a failing run fails the search, and running out of
      pairs is `unreachable!()`. */
  function Scan(results: (nat, nat) -> Result<int, Fault>, noun: nat, verb: nat): Result<(nat, nat), Fault>
    requires noun <= 100 && verb <= 100
    decreases 100 - noun, 100 - verb
  {
    if noun == 100 then Err(NoAnswer)
    else if verb == 100 then Scan(results, noun + 1, 0)
    else
      var x :- results(noun, verb);
      if x == Goal then Ok((noun, verb)) else Scan(results, noun, verb + 1)
  }

  /** One iteration of the inner loop, and the end of a row. */
  lemma ScanStep(results: (nat, nat) -> Result<int, Fault>, noun: nat, verb: nat)
    requires noun < 100 && verb <= 100
    ensures verb == 100 ==> Scan(results, noun, verb) == Scan(results, noun + 1, 0)
    ensures verb < 100 && results(noun, verb).Err? ==> Scan(results, noun, verb) == Err(results(noun, verb).error)
    ensures verb < 100 && results(noun, verb) == Ok(Goal) ==> Scan(results, noun, verb) == Ok((noun, verb))
    ensures verb < 100 && results(noun, verb).Ok? && results(noun, verb).value != Goal ==>
              Scan(results, noun, verb) == Scan(results, noun, verb + 1)
  {
  }

  /** Every pair of 0..99 from (noun, verb) on, before (n, v), ran to a
      value other than `Goal`. */
  predicate Misses(results: (nat, nat) -> Result<int, Fault>, noun: nat, verb: nat, n: nat, v: nat)
  {
    forall n': nat, v': nat ::
      n' < 100 && v' < 100 && !Precedes(n', v', noun, verb) && Precedes(n', v', n, v) ==>
        results(n', v').Ok? && results(n', v').value != Goal
  }

  /** A found pair is in range, at or after the start, runs to `Goal`, and
      every pair before it runs to something else: it is the first one. */
  lemma {:induction false} ScanFound(results: (nat, nat) -> Result<int, Fault>, noun: nat, verb: nat)
    requires noun <= 100 && verb <= 100 && Scan(results, noun, verb).Ok?
    ensures var (n, v) := Scan(results, noun, verb).value;
            && n < 100 && v < 100 && !Precedes(n, v, noun, verb)
            && results(n, v) == Ok(Goal)
            && Misses(results, noun, verb, n, v)
    decreases 100 - noun, 100 - verb
  {
    if verb == 100 {
      ScanFound(results, noun + 1, 0);
    } else if results(noun, verb) != Ok(Goal) {
      ScanFound(results, noun, verb + 1);
    }
  }

  /** A failed search either met a failing run, after only misses, or
      tried every pair without a hit. */
  lemma {:induction false} ScanFailed(results: (nat, nat) -> Result<int, Fault>, noun: nat, verb: nat)
    requires noun <= 100 && verb <= 100 && Scan(results, noun, verb).Err?
    ensures var e := Scan(results, noun, verb).error;
            || (e == NoAnswer && Misses(results, noun, verb, 100, 0))
            || (exists n: nat, v: nat :: n < 100 && v < 100 && !Precedes(n, v, noun, verb) &&
                  results(n, v) == Err(e) && Misses(results, noun, verb, n, v))
    decreases 100 - noun, 100 - verb
  {
    if verb == 100 && noun < 100 {
      ScanFailed(results, noun + 1, 0);
    } else if noun < 100 && results(noun, verb).Ok? {
      ScanFailed(results, noun, verb + 1);
    }
  }
}
