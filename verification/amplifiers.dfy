/** The amplifier circuits of days 7 and 9: the serial chain
    (`try_sequence`) and the feedback loop (`try_sequence_feedback`), each
    specified by a function over machine states and implemented by a
    method that drives `Machine` objects. */
module Amplifiers {
  import opened Wrappers
  import opened IntcodeTypes
  import opened IntcodeExec
  import opened IntcodeMachine

  /** The serial chain from `signal` on: each amplifier runs a fresh copy of
      the program (padded as `run_prog` pads it) on the input
      [phase, signal] and must print exactly one value, which is the next
      amplifier's signal. Each run has at most `fuel` steps. */
  function Chain(v: Version, program: seq<int>, phases: seq<int>, signal: int, fuel: nat): Result<int, Fault>
    decreases |phases|
  {
    if phases == [] then Ok(signal)
    else
      var out :- Amplify(v, program, phases[0], signal, fuel);
      if |out| != 1 then Err(WrongOutputCount(|out|))
      else Chain(v, program, phases[1..], out[0], fuel)
  }

  /** One amplifier of the chain: `run_prog` on input [phase, signal]. */
  function Amplify(v: Version, program: seq<int>, phase: int, signal: int, fuel: nat): Result<seq<int>, Fault>
  {
    Run(v, Initial(Memory(v, program), [phase, signal]), fuel)
  }

  /** `try_sequence`: exactly five phases, and the first signal is 0. */
  function Serial(v: Version, program: seq<int>, phases: seq<int>, fuel: nat): Result<int, Fault>
  {
    if |phases| != 5 then Err(WrongPhaseCount(|phases|)) else Chain(v, program, phases, 0, fuel)
  }

  /** `try_sequence`, amplifier by amplifier. */
  method TrySequence(v: Version, program: seq<int>, phases: seq<int>, fuel: nat) returns (r: Result<int, Fault>)
    ensures r == Serial(v, program, phases, fuel)
  {
    if |phases| != 5 {
      return Err(WrongPhaseCount(|phases|));
    }
    var output := 0;
    for i := 0 to |phases|
      invariant Chain(v, program, phases, 0, fuel) == Chain(v, program, phases[i..], output, fuel)
    {
      assert phases[i..][1..] == phases[i + 1..];
      var outs := RunProg(v, program, [phases[i], output], fuel);
      if outs.Err? {
        return Err(outs.error);
      }
      if |outs.value| != 1 {
        return Err(WrongOutputCount(|outs.value|));
      }
      output := outs.value[0];
    }
    assert phases[|phases|..] == [];
    return Ok(output);
  }

  /** A successful chain ends with the last amplifier's only output: some
      signal fed to the last phase makes its run print exactly the result. */
  lemma {:induction false} ChainLast(v: Version, program: seq<int>, phases: seq<int>, signal: int, fuel: nat)
    requires phases != [] && Chain(v, program, phases, signal, fuel).Ok?
    ensures exists s :: Amplify(v, program, Last(phases), s, fuel) == Ok([Chain(v, program, phases, signal, fuel).value])
    decreases |phases|
  {
    var out := Amplify(v, program, phases[0], signal, fuel).value;
    var rest := phases[1..];
    if rest == [] {
      assert out == [out[0]];
      assert Amplify(v, program, Last(phases), signal, fuel) == Ok([out[0]]);
    } else {
      ChainLast(v, program, rest, out[0], fuel);
      assert Last(rest) == Last(phases);
    }
  }

  function Last(phases: seq<int>): int
    requires phases != []
  {
    phases[|phases| - 1]
  }

  /** A successful serial run had exactly five phases. */
  lemma SerialNeedsFive(v: Version, program: seq<int>, phases: seq<int>, fuel: nat)
    ensures Serial(v, program, phases, fuel).Ok? ==> |phases| == 5
    ensures |phases| != 5 ==> Serial(v, program, phases, fuel) == Err(WrongPhaseCount(|phases|))
  {
  }

  /** A machine with `value` appended to its input queue. */
  function Pushed(s: State, value: int): State
  {
    s.(input := s.input + [value])
  }

  /** The machines `try_sequence_feedback` starts: one per phase, each on its
      own unpadded copy of the program with its phase as its only input. */
  function Starts(program: seq<int>, phases: seq<int>): seq<State>
  {
    seq(|phases|, j requires 0 <= j < |phases| => Initial(program, [phases[j]]))
  }

  /** The amplifier after `i`: the inner `for i in 0..5` wraps round. */
  function NextAmp(i: nat): (j: nat)
    requires i < 5
    ensures j < 5 && j == (i + 1) % 5
  {
    if i == 4 then 0 else i + 1
  }

  /** The `'overall` loop from amplifier `i` with `signal` in hand: push the
      signal, run until one output or Halt, stop with the current signal
      when there was no output, and otherwise pass the output on to the
      next amplifier, wrapping after the fifth. All runs share one step
      budget. */
  function Feedback(v: Version, machines: seq<State>, i: nat, signal: int, fuel: nat): Result<int, Fault>
    requires i < 5
    decreases fuel
  {
    if i >= |machines| then Err(MissingAmplifier(i))
    else
      var p :- RunUntilOne(v, Pushed(machines[i], signal), fuel);
      if p.out.None? then Ok(signal)
      else Feedback(v, machines[i := p.state], NextAmp(i), p.out.value, p.fuelLeft)
  }

  /** One turn of the `'overall` loop, in its four outcomes. */
  lemma FeedbackTurn(v: Version, machines: seq<State>, i: nat, signal: int, fuel: nat)
    requires i < 5
    ensures i >= |machines| ==> Feedback(v, machines, i, signal, fuel) == Err(MissingAmplifier(i))
    ensures i < |machines| ==>
              var p := RunUntilOne(v, Pushed(machines[i], signal), fuel);
              && (p.Err? ==> Feedback(v, machines, i, signal, fuel) == Err(p.error))
              && (p.Ok? && p.value.out.None? ==> Feedback(v, machines, i, signal, fuel) == Ok(signal))
              && (p.Ok? && p.value.out.Some? ==>
                    Feedback(v, machines, i, signal, fuel)
                    == Feedback(v, machines[i := p.value.state], NextAmp(i), p.value.out.value, p.value.fuelLeft))
  {
  }

  /** `try_sequence_feedback`: start at amplifier 0 with signal 0. */
  function FeedbackResult(v: Version, program: seq<int>, phases: seq<int>, fuel: nat): Result<int, Fault>
  {
    Feedback(v, Starts(program, phases), 0, 0, fuel)
  }

  /** Only the first five machines ever run: the inner loop is `for i in 0..5`. */
  lemma {:induction false} FeedbackFirstFive(v: Version, machines: seq<State>, five: seq<State>, i: nat, signal: int, fuel: nat)
    requires i < 5 && |machines| >= 5 && five == machines[..5]
    ensures Feedback(v, machines, i, signal, fuel) == Feedback(v, five, i, signal, fuel)
    decreases fuel
  {
    FeedbackTurn(v, machines, i, signal, fuel);
    FeedbackTurn(v, five, i, signal, fuel);
    assert five[i] == machines[i];
    var p := RunUntilOne(v, Pushed(machines[i], signal), fuel);
    if p.Ok? && p.value.out.Some? {
      var t := p.value.state;
      assert five[i := t] == machines[i := t][..5];
      FeedbackFirstFive(v, machines[i := t], five[i := t], NextAmp(i), p.value.out.value, p.value.fuelLeft);
    }
  }

  /** Phases after the fifth are ignored. */
  lemma FeedbackIgnoresExtraPhases(v: Version, program: seq<int>, phases: seq<int>, fuel: nat)
    requires |phases| >= 5
    ensures FeedbackResult(v, program, phases, fuel) == FeedbackResult(v, program, phases[..5], fuel)
  {
    assert Starts(program, phases)[..5] == Starts(program, phases[..5]);
    FeedbackFirstFive(v, Starts(program, phases), Starts(program, phases[..5]), 0, 0, fuel);
  }

  /** `try_sequence_feedback` on one `Machine` object per phase. */
  method TrySequenceFeedback(v: Version, program: seq<int>, phases: seq<int>, fuel: nat) returns (r: Result<int, Fault>)
    ensures r == FeedbackResult(v, program, phases, fuel)
  {
    var machines: seq<Machine> := [];
    for k := 0 to |phases|
      invariant |machines| == k
      invariant forall j :: 0 <= j < k ==> fresh(machines[j]) && machines[j].version == v
      invariant forall j :: 0 <= j < k ==> machines[j].View() == Initial(program, [phases[j]])
      invariant forall j, l :: 0 <= j < l < k ==> machines[j] != machines[l]
    {
      var m := new Machine(v, program, [phases[k]]);
      machines := machines + [m];
    }
    ghost var states := Starts(program, phases);
    var signal := 0;
    var left: nat := fuel;
    var i: nat := 0;
    // The `'overall` loop and its inner `for i in 0..5` as one loop whose
    // amplifier index wraps round after the fifth.
    while true
      invariant i < 5 && |states| == |machines|
      invariant forall j :: 0 <= j < |machines| ==> fresh(machines[j]) && machines[j].version == v
      invariant forall j :: 0 <= j < |machines| ==> machines[j].View() == states[j]
      invariant forall j, l :: 0 <= j < l < |machines| ==> machines[j] != machines[l]
      invariant Feedback(v, states, i, signal, left) == FeedbackResult(v, program, phases, fuel)
      decreases left
    {
      FeedbackTurn(v, states, i, signal, left);
      if i >= |machines| {
        return Err(MissingAmplifier(i));
      }
      var m := machines[i];
      m.PushInput(signal);
      assert m.View() == Pushed(states[i], signal);
      var res := m.RunUntilOutput(left);
      if res.Err? {
        return Err(res.error);
      }
      var (out, halted, rest) := res.value;
      if out.None? {
        return Ok(signal);
      }
      states := states[i := m.View()];
      signal := out.value;
      left := rest;
      i := NextAmp(i);
    }
  }
}
