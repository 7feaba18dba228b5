/** One running Intcode machine (`ProgramState`) whose fields the step
    updates in place, and `run_prog` of days 7 and 9 built on it. Each
    method is specified by the functions of `IntcodeExec`. */
module IntcodeMachine {
  import opened Wrappers
  import opened IntcodeTypes
  import opened IntcodeDecode
  import opened IntcodeExec

  class Machine {
    const version: Version
    var program: seq<int>
    var input: seq<int>
    var inputIdx: nat
    var pc: nat
    var relativeBase: int

    /** The machine's fields as a value. */
    function View(): State
      reads this
    {
      State(program, input, inputIdx, pc, relativeBase)
    }

    /** A fresh machine on its own copy of the program. */
    constructor (version: Version, program: seq<int>, input: seq<int>)
      ensures this.version == version && View() == Initial(program, input)
    {
      this.version := version;
      this.program := program;
      this.input := input;
      inputIdx := 0;
      pc := 0;
      relativeBase := 0;
    }

    /** `input.push(value)`: appends to the input queue, nothing else moves. */
    method PushInput(value: int)
      modifies this`input
      ensures input == old(input) + [value]
    {
      input := input + [value];
    }

    /** `Opcode::write` on this machine's memory. */
    method Store(value: int, p: Param) returns (r: Result<(), Fault>)
      modifies this`program
      ensures Write(value, p, old(program), relativeBase).Ok? ==>
                r.Ok? && program == Write(value, p, old(program), relativeBase).value
      ensures Write(value, p, old(program), relativeBase).Err? ==>
                r == Err(Write(value, p, old(program), relativeBase).error) && program == old(program)
    {
      if p.mode == Immediate {
        return Err(ImmediateWrite);
      }
      var a := Address(p, relativeBase);
      if a < 0 || a >= |program| {
        return Err(OutOfBounds(a));
      }
      program := program[a := value];
      return Ok(());
    }

    /** `Opcode::execute`: reads its operands, writes memory or moves the
        base, and reports the jump target and the output. Input consumes
        the value at the cursor (the cursor itself moves in `StepProg`). */
    method Execute(op: Opcode) returns (r: Result<(Option<nat>, Option<int>), Fault>)
      requires |op.params| == ArgCount(op.root) && inputIdx <= |input|
      modifies this`program, this`relativeBase
      ensures var x := Exec(op, old(program), input[inputIdx..], old(relativeBase));
              && (x.Ok? ==> r == Ok((x.value.jump, x.value.out)) &&
                            program == x.value.program && relativeBase == x.value.base)
              && (x.Err? ==> r == Err(x.error) && program == old(program) && relativeBase == old(relativeBase))
    {
      var params := op.params;
      match op.root {
        case Add =>
          var lhs :- Read(params[0], program, relativeBase);
          var rhs :- Read(params[1], program, relativeBase);
          var w :- Store(lhs + rhs, params[2]);
          return Ok((None, None));
        case Multiply =>
          var lhs :- Read(params[0], program, relativeBase);
          var rhs :- Read(params[1], program, relativeBase);
          var w :- Store(lhs * rhs, params[2]);
          return Ok((None, None));
        case Halt =>
          return Ok((None, None));
        case Input =>
          if inputIdx == |input| {
            return Err(InputExhausted);
          }
          var w :- Store(input[inputIdx], params[0]);
          return Ok((None, None));
        case Output =>
          var value :- Read(params[0], program, relativeBase);
          return Ok((None, Some(value)));
        case LessThan =>
          var lhs :- Read(params[0], program, relativeBase);
          var rhs :- Read(params[1], program, relativeBase);
          var w :- Store(if lhs < rhs then 1 else 0, params[2]);
          return Ok((None, None));
        case Equals =>
          var lhs :- Read(params[0], program, relativeBase);
          var rhs :- Read(params[1], program, relativeBase);
          var w :- Store(if lhs == rhs then 1 else 0, params[2]);
          return Ok((None, None));
        case JumpTrue =>
          var cond :- Read(params[0], program, relativeBase);
          if cond != 0 {
            var target :- Read(params[1], program, relativeBase);
            var jump :- Target(target);
            return Ok((jump, None));
          }
          return Ok((None, None));
        case JumpFalse =>
          var cond :- Read(params[0], program, relativeBase);
          if cond == 0 {
            var target :- Read(params[1], program, relativeBase);
            var jump :- Target(target);
            return Ok((jump, None));
          }
          return Ok((None, None));
        case SetBase =>
          var value :- Read(params[0], program, relativeBase);
          relativeBase := relativeBase + value;
          return Ok((None, None));
      }
    }

    /** `step_prog`: decode at pc, execute, move pc and the input cursor;
        returns the output and whether the instruction was Halt. A failing
        step leaves the machine as it was. */
    method StepProg() returns (r: Result<(Option<int>, bool), Fault>)
      modifies this
      ensures Step(version, old(View())) == Outcome(r, View())
      ensures r.Err? ==> View() == old(View())
    {
      ghost var s := View();
      StepStops(version, s);
      var parsed := Parse(version, program, pc);
      if parsed.Err? {
        return Err(parsed.error);
      }
      var op := parsed.value;
      DecodeArity(version, program, pc);
      if inputIdx > |input| {
        return Err(InputExhausted);
      }
      r := Perform(op);
    }

    /** The rest of `step_prog` once the instruction at pc is decoded:
        execute it, then move pc and the input cursor. */
    method Perform(op: Opcode) returns (r: Result<(Option<int>, bool), Fault>)
      requires Decode(version, program, pc) == Ok(op) && inputIdx <= |input|
      requires |op.params| == ArgCount(op.root)
      modifies this
      ensures Step(version, old(View())) == Outcome(r, View())
      ensures r.Err? ==> View() == old(View())
    {
      ghost var s := View();
      var effect := Execute(op);
      if effect.Err? {
        StepFails(version, s, op);
        return Err(effect.error);
      }
      var (jump, out) := effect.value;
      StepSucceeds(version, s, op, Effect(program, relativeBase, jump, out));
      pc := if jump.Some? then jump.value else pc + 1 + ArgCount(op.root);
      inputIdx := if op.root == Input then inputIdx + 1 else inputIdx;
      return Ok((out, op.root == Halt));
    }

    /** The `run_until_one` closure: steps until a step emits or halts, with
        at most `fuel` steps; also returns the budget left over. */
    method RunUntilOutput(fuel: nat) returns (r: Result<(Option<int>, bool, nat), Fault>)
      modifies this
      ensures r == Paused(RunUntilOne(version, old(View()), fuel))
      ensures r.Ok? ==> View() == RunUntilOne(version, old(View()), fuel).value.state
    {
      var left: nat := fuel;
      while true
        invariant left <= fuel
        invariant RunUntilOne(version, old(View()), fuel) == RunUntilOne(version, View(), left)
        decreases left
      {
        if left == 0 {
          return Err(StepLimit);
        }
        RunUntilOneFirstStep(version, View(), left);
        var step := StepProg();
        if step.Err? {
          return Err(step.error);
        }
        left := left - 1;
        var (out, halted) := step.value;
        if out.Some? || halted {
          return Ok((out, halted, left));
        }
      }
    }
  }

  lemma StepByEffect(v: Version, s: State, op: Opcode)
    requires Decode(v, s.program, s.pc) == Ok(op) && s.inputIdx <= |s.input|
    requires |op.params| == ArgCount(op.root)
    ensures var e := Exec(op, s.program, s.input[s.inputIdx..], s.relativeBase);
            Step(v, s) ==
              if e.Err? then Err(e.error)
              else Ok(Stepped(State(e.value.program, s.input,
                                    if op.root == Input then s.inputIdx + 1 else s.inputIdx,
                                    if e.value.jump.Some? then e.value.jump.value else s.pc + 1 + ArgCount(op.root),
                                    e.value.base),
                              e.value.out, op.root == Halt))
  {
  }

  /** A step fails before executing anything when the word at pc does not
      decode, or when the input cursor is past the end of the input. */
  lemma StepStops(v: Version, s: State)
    ensures Decode(v, s.program, s.pc).Err? ==> Step(v, s) == Err(Decode(v, s.program, s.pc).error)
    ensures Decode(v, s.program, s.pc).Ok? && s.inputIdx > |s.input| ==> Step(v, s) == Err(InputExhausted)
  {
  }

  /** A failing execution fails the step with the same fault. */
  lemma StepFails(v: Version, s: State, op: Opcode)
    requires Decode(v, s.program, s.pc) == Ok(op) && s.inputIdx <= |s.input|
    requires |op.params| == ArgCount(op.root)
    requires Exec(op, s.program, s.input[s.inputIdx..], s.relativeBase).Err?
    ensures Step(v, s) == Err(Exec(op, s.program, s.input[s.inputIdx..], s.relativeBase).error)
  {
    StepByEffect(v, s, op);
  }

  /** A successful execution with effect `e` makes the step that
      `step_prog` performs. */
  lemma StepSucceeds(v: Version, s: State, op: Opcode, e: Effect)
    requires Decode(v, s.program, s.pc) == Ok(op) && s.inputIdx <= |s.input|
    requires |op.params| == ArgCount(op.root)
    requires Exec(op, s.program, s.input[s.inputIdx..], s.relativeBase) == Ok(e)
    ensures Step(v, s) == Ok(Stepped(State(e.program, s.input,
                                           if op.root == Input then s.inputIdx + 1 else s.inputIdx,
                                           if e.jump.Some? then e.jump.value else s.pc + 1 + ArgCount(op.root),
                                           e.base),
                                     e.out, op.root == Halt))
  {
    StepByEffect(v, s, op);
  }

  /** A step's result as `step_prog` reports it, paired with the new state. */
  function Outcome(r: Result<(Option<int>, bool), Fault>, s: State): Result<Stepped, Fault>
  {
    match r
    case Err(e) => Err(e)
    case Ok((out, halted)) => Ok(Stepped(s, out, halted))
  }

  /** What `run_until_one` hands back: the output, the halted flag and the
      unused budget. */
  function Paused(r: Result<Pause, Fault>): Result<(Option<int>, bool, nat), Fault>
  {
    match r
    case Err(e) => Err(e)
    case Ok(p) => Ok((p.out, p.halted, p.fuelLeft))
  }

  /** The memory `run_prog` starts from: day 9 pads the program with zeros
      to 10000 cells, day 7 (and day 5) use it as it is. */
  function Memory(v: Version, program: seq<int>): (m: seq<int>)
    ensures program <= m
    ensures |m| == if v == Day9 && |program| < 10000 then 10000 else |program|
    ensures forall i :: |program| <= i < |m| ==> m[i] == 0
  {
    if v == Day9 && |program| < 10000 then program + seq(10000 - |program|, _ => 0) else program
  }

  /** With no padding, day 7 cannot touch a cell at or beyond the program
      length: a Position read there is an out-of-bounds failure. */
  lemma NoPaddingOnDay7(program: seq<int>, raw: int)
    requires raw >= |program|
    ensures Read(Param(Position, raw), Memory(Day7, program), 0) == Err(OutOfBounds(raw))
  {
  }

  lemma AfterAfter(a: seq<int>, b: seq<int>, r: Result<seq<int>, Fault>)
    ensures After(a, After(b, r)) == After(a + b, r)
  {
    if r.Ok? {
      assert a + (b + r.value) == (a + b) + r.value;
    }
  }

  /** `run_prog` (days 7 and 9): run a fresh machine until Halt, collecting
      its outputs in order. */
  method RunProg(v: Version, program: seq<int>, input: seq<int>, fuel: nat) returns (r: Result<seq<int>, Fault>)
    ensures r == Run(v, Initial(Memory(v, program), input), fuel)
  {
    var mem := program;
    if v == Day9 && |mem| < 10000 {
      mem := mem + seq(10000 - |mem|, _ => 0);
    }
    assert mem == Memory(v, program);
    var m := new Machine(v, mem, input);
    var output: seq<int> := [];
    var left: nat := fuel;
    ghost var total := Run(v, m.View(), left);
    assert total == After([], total) by {
      if total.Ok? {
        assert [] + total.value == total.value;
      }
    }
    while true
      invariant m.version == v
      invariant total == After(output, Run(v, m.View(), left))
      decreases left
    {
      if left == 0 {
        return Err(StepLimit);
      }
      ghost var before := m.View();
      var step := m.StepProg();
      RunAdvance(v, total, output, before, left, step, m.View());
      if step.Err? {
        return Err(step.error);
      }
      var (out, halted) := step.value;
      output := output + Emitted(out);
      left := left - 1;
      if halted {
        return Ok(output);
      }
    }
  }

  /** The bookkeeping of one `run_prog` iteration: a failing step fails the
      run, a halting step ends it with the collected outputs, and any other
      step keeps the collected outputs plus the rest of the run equal to
      the whole run. */
  lemma RunAdvance(v: Version, total: Result<seq<int>, Fault>, output: seq<int>, s: State, left: nat,
                   r: Result<(Option<int>, bool), Fault>, t: State)
    requires left > 0
    requires total == After(output, Run(v, s, left))
    requires Step(v, s) == Outcome(r, t)
    ensures r.Err? ==> total == Err(r.error)
    ensures r.Ok? && r.value.1 ==> total == Ok(output + Emitted(r.value.0))
    ensures r.Ok? && !r.value.1 ==> total == After(output + Emitted(r.value.0), Run(v, t, left - 1))
  {
    RunFirstStep(v, s, left);
    if r.Ok? {
      AfterAfter(output, Emitted(r.value.0), Run(v, t, left - 1));
    }
  }
}
