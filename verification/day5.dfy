/** Day 5's driver around the machine: `run_prog` steps a day-5 machine
    until Halt and returns cell 0, `run_with_args` and `find_end_value` are
    the noun/verb search of day 2 on this machine. Input and output go to
    the console in the source; here the input is a fixed sequence and
    outputs are dropped. */
module Day5 {
  import opened Wrappers
  import opened IntcodeTypes
  import opened IntcodeExec
  import opened IntcodeMachine
  import opened NounVerb

  /** The state in which a run halts, with at most `fuel` steps; the halting
      step read its opcode from memory, so memory is not empty. */
  function Finish(v: Version, s: State, fuel: nat): (r: Result<State, Fault>)
    ensures r.Ok? ==> |r.value.program| == |s.program| > 0
  {
    FinishFrom(v, Stepped(s, None, false), fuel)
  }

  /** Where the run halts after step `t`, with `fuel` steps left. */
  function FinishFrom(v: Version, t: Stepped, fuel: nat): (r: Result<State, Fault>)
    requires t.halted ==> |t.state.program| > 0
    ensures r.Ok? ==> |r.value.program| == |t.state.program| > 0
    decreases fuel, 0
  {
    if t.halted then Ok(t.state)
    else if fuel == 0 then Err(StepLimit)
    else FinishAdvance(v, t.state, fuel - 1)
  }

  /** Takes one step from `s` and goes on to the halt. */
  function FinishAdvance(v: Version, s: State, fuel: nat): (r: Result<State, Fault>)
    ensures r.Ok? ==> |r.value.program| == |s.program| > 0
    decreases fuel, 1
  {
    var t :- Step(v, s);
    FinishFrom(v, t, fuel)
  }

  /** One unfolding of `Finish`: a failing step fails the run, a halting
      step ends it in the state it leaves, any other step continues it. */
  lemma FinishFirstStep(v: Version, s: State, fuel: nat)
    requires fuel > 0
    ensures Step(v, s).Err? ==> Finish(v, s, fuel) == Err(Step(v, s).error)
    ensures Step(v, s).Ok? && Step(v, s).value.halted ==> Finish(v, s, fuel) == Ok(Step(v, s).value.state)
    ensures Step(v, s).Ok? && !Step(v, s).value.halted ==> Finish(v, s, fuel) == Finish(v, Step(v, s).value.state, fuel - 1)
  {
    assert Finish(v, s, fuel) == FinishAdvance(v, s, fuel - 1);
    if Step(v, s).Ok? {
      var t := Step(v, s).value;
      assert FinishAdvance(v, s, fuel - 1) == FinishFrom(v, t, fuel - 1);
      if !t.halted && fuel > 1 {
        assert Finish(v, t.state, fuel - 1) == FinishAdvance(v, t.state, fuel - 2);
      }
    }
  }

  /** Running to the halt state takes the same steps as collecting the
      outputs: both succeed together, and they fail with the same fault. */
  lemma {:induction false} FinishAgreesWithRun(v: Version, s: State, fuel: nat)
    ensures Finish(v, s, fuel).Ok? <==> Run(v, s, fuel).Ok?
    ensures Finish(v, s, fuel).Err? ==> Run(v, s, fuel) == Err(Finish(v, s, fuel).error)
    decreases fuel
  {
    if fuel == 0 {
      assert Finish(v, s, fuel) == Err(StepLimit);
      assert Run(v, s, fuel) == Err(StepLimit);
    } else {
      FinishFirstStep(v, s, fuel);
      RunFirstStep(v, s, fuel);
      if Step(v, s).Ok? && !Step(v, s).value.halted {
        var t := Step(v, s).value;
        FinishAgreesWithRun(v, t.state, fuel - 1);
      }
    }
  }

  /** `run_prog`: the value of cell 0 once the program halts. */
  function Final(program: seq<int>, input: seq<int>, fuel: nat): Result<int, Fault>
  {
    var t :- Finish(Day5, Initial(program, input), fuel);
    Ok(t.program[0])
  }

  /** `run_prog`: steps a day-5 machine until Halt and returns cell 0. */
  method RunProg(program: seq<int>, input: seq<int>, fuel: nat) returns (r: Result<int, Fault>)
    ensures r == Final(program, input, fuel)
  {
    var m := new Machine(Day5, program, input);
    var left: nat := fuel;
    while true
      invariant m.version == Day5
      invariant Finish(Day5, Initial(program, input), fuel) == Finish(Day5, m.View(), left)
      decreases left
    {
      if left == 0 {
        return Err(StepLimit);
      }
      FinishFirstStep(Day5, m.View(), left);
      var step := m.StepProg();
      if step.Err? {
        return Err(step.error);
      }
      left := left - 1;
      var (out, halted) := step.value;
      if halted {
        return Ok(m.program[0]);
      }
    }
  }

  /** `run_with_args`: noun and verb in cells 1 and 2, then `run_prog`. */
  function EndValue(program: seq<int>, input: seq<int>, noun: int, verb: int, fuel: nat): Result<int, Fault>
  {
    var p :- SetArgs(noun, verb, program);
    Final(p, input, fuel)
  }

  /** `run_with_args` on its own copy of the program. */
  method RunWithArgs(noun: int, verb: int, p: seq<int>, input: seq<int>, fuel: nat) returns (r: Result<int, Fault>)
    ensures r == EndValue(p, input, noun, verb, fuel)
  {
    if |p| < 2 {
      return Err(OutOfBounds(1));
    }
    if |p| < 3 {
      return Err(OutOfBounds(2));
    }
    var q := p[1 := noun];
    q := q[2 := verb];
    r := RunProg(q, input, fuel);
  }

  /** The run of each (noun, verb) pair. */
  function Results(program: seq<int>, input: seq<int>, fuel: nat): (nat, nat) -> Result<int, Fault>
  {
    (noun: nat, verb: nat) => EndValue(program, input, noun, verb, fuel)
  }

  /** `find_end_value`: the first pair, in row-major order, whose run ends
      with 19690720. */
  method FindEndValue(program: seq<int>, input: seq<int>, fuel: nat) returns (r: Result<(nat, nat), Fault>)
    ensures r == Scan(Results(program, input, fuel), 0, 0)
  {
    ghost var results := Results(program, input, fuel);
    for noun := 0 to 100
      invariant Scan(results, 0, 0) == Scan(results, noun, 0)
    {
      for verb := 0 to 100
        invariant Scan(results, 0, 0) == Scan(results, noun, verb)
      {
        var result := RunWithArgs(noun, verb, program, input, fuel);
        ScanStep(results, noun, verb);
        if result.Err? {
          return Err(result.error);
        }
        if result.value == Goal {
          return Ok((noun, verb));
        }
      }
      ScanStep(results, noun, 100);
    }
    return Err(NoAnswer);
  }
}
