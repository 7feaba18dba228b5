/** The instruction executor and the machine step, as functions on values:
    parameter resolution (`read`/`write`), `execute`, `step_prog` and the
    two run loops, each bounded by a step budget. */
module IntcodeExec {
  import opened Wrappers
  import opened IntcodeTypes
  import opened IntcodeDecode

  /** The cell a Position or Relative parameter names: the raw value, or the
      raw value plus the relative base. */
  function Address(p: Param, base: int): int
  {
    if p.mode == Relative then p.raw + base else p.raw
  }

  /** `Opcode::read`: Immediate yields the raw value, the other modes the
      memory cell they address; a negative or too large address fails. */
  function Read(p: Param, mem: seq<int>, base: int): (r: Result<int, Fault>)
    ensures p.mode == Immediate ==> r == Ok(p.raw)
    ensures p.mode != Immediate ==>
              (r.Ok? <==> 0 <= Address(p, base) < |mem|) &&
              (r.Ok? ==> r.value == mem[Address(p, base)])
  {
    if p.mode == Immediate then Ok(p.raw)
    else if 0 <= Address(p, base) < |mem| then Ok(mem[Address(p, base)])
    else Err(OutOfBounds(Address(p, base)))
  }

  /** `Opcode::write`: writing through Immediate fails; otherwise exactly the
      addressed cell changes, and the length does not. */
  function Write(value: int, p: Param, mem: seq<int>, base: int): (r: Result<seq<int>, Fault>)
    ensures p.mode == Immediate ==> r == Err(ImmediateWrite)
    ensures p.mode != Immediate ==> (r.Ok? <==> 0 <= Address(p, base) < |mem|)
    ensures r.Ok? ==> |r.value| == |mem| && r.value[Address(p, base)] == value
    ensures r.Ok? ==> forall a :: 0 <= a < |mem| && a != Address(p, base) ==> r.value[a] == mem[a]
  {
    if p.mode == Immediate then Err(ImmediateWrite)
    else if 0 <= Address(p, base) < |mem| then Ok(mem[Address(p, base) := value])
    else Err(OutOfBounds(Address(p, base)))
  }

  /** A Relative parameter reads the cell a Position parameter offset by the
      base reads. */
  lemma RelativeIsShiftedPosition(raw: int, mem: seq<int>, base: int, value: int)
    ensures Read(Param(Relative, raw), mem, base) == Read(Param(Position, raw + base), mem, 0)
    ensures Write(value, Param(Relative, raw), mem, base) == Write(value, Param(Position, raw + base), mem, 0)
  {
  }

  /** Reading back through the parameter just written yields the value; any
      parameter that addresses another cell reads what it read before. */
  lemma ReadAfterWrite(value: int, p: Param, q: Param, mem: seq<int>, base: int)
    requires Write(value, p, mem, base).Ok?
    ensures q.mode != Immediate && Address(q, base) == Address(p, base) ==>
              Read(q, Write(value, p, mem, base).value, base) == Ok(value)
    ensures q.mode == Immediate || Address(q, base) != Address(p, base) ==>
              Read(q, Write(value, p, mem, base).value, base) == Read(q, mem, base)
  {
  }

  /** What one instruction does: the new memory and base, the jump target
      (if the instruction redirects the program counter) and the output. */
  datatype Effect = Effect(program: seq<int>, base: int, jump: Option<nat>, out: Option<int>)

  /** A jump target read as `usize`: a negative target is a failure. */
  function Target(value: int): Result<Option<nat>, Fault>
  {
    if value < 0 then Err(NegativeJump(value)) else Ok(Some(value))
  }

  /** The value an arithmetic or comparison root writes. */
  function Combine(root: OpcodeRoot, lhs: int, rhs: int): int
  {
    match root
    case Add => lhs + rhs
    case Multiply => lhs * rhs
    case LessThan => if lhs < rhs then 1 else 0
    case Equals => if lhs == rhs then 1 else 0
    case _ => 0
  }

  predicate IsArithmetic(root: OpcodeRoot)
  {
    root == Add || root == Multiply || root == LessThan || root == Equals
  }

  predicate IsJump(root: OpcodeRoot)
  {
    root == JumpTrue || root == JumpFalse
  }

  /** The condition under which a jump root is taken. */
  predicate Taken(root: OpcodeRoot, cond: int)
  {
    if root == JumpTrue then cond != 0 else cond == 0
  }

  /** `Opcode::execute` on a decoded instruction; `pending` is the
      unconsumed input. Only arithmetic, comparison and Input change memory
      (one cell), only taken jumps redirect, only Output emits and only
      SetBase moves the base. */
  function Exec(op: Opcode, mem: seq<int>, pending: seq<int>, base: int): (r: Result<Effect, Fault>)
    requires |op.params| == ArgCount(op.root)
    ensures r.Ok? ==> |r.value.program| == |mem|
    ensures r.Ok? ==> forall a, b :: 0 <= a < b < |mem| && r.value.program[a] != mem[a] ==> r.value.program[b] == mem[b]
    ensures r.Ok? && !IsArithmetic(op.root) && op.root != Input ==> r.value.program == mem
    ensures r.Ok? && r.value.jump.Some? ==> IsJump(op.root)
    ensures r.Ok? ==> (r.value.out.Some? <==> op.root == Output)
    ensures r.Ok? && op.root != SetBase ==> r.value.base == base
  {
    match op.root
    case Add =>
      var lhs :- Read(op.params[0], mem, base);
      var rhs :- Read(op.params[1], mem, base);
      var m :- Write(lhs + rhs, op.params[2], mem, base);
      Ok(Effect(m, base, None, None))
    case Multiply =>
      var lhs :- Read(op.params[0], mem, base);
      var rhs :- Read(op.params[1], mem, base);
      var m :- Write(lhs * rhs, op.params[2], mem, base);
      Ok(Effect(m, base, None, None))
    case Halt =>
      Ok(Effect(mem, base, None, None))
    case Input =>
      if pending == [] then Err(InputExhausted)
      else
        var m :- Write(pending[0], op.params[0], mem, base);
        Ok(Effect(m, base, None, None))
    case Output =>
      var value :- Read(op.params[0], mem, base);
      Ok(Effect(mem, base, None, Some(value)))
    case LessThan =>
      var lhs :- Read(op.params[0], mem, base);
      var rhs :- Read(op.params[1], mem, base);
      var m :- Write(if lhs < rhs then 1 else 0, op.params[2], mem, base);
      Ok(Effect(m, base, None, None))
    case Equals =>
      var lhs :- Read(op.params[0], mem, base);
      var rhs :- Read(op.params[1], mem, base);
      var m :- Write(if lhs == rhs then 1 else 0, op.params[2], mem, base);
      Ok(Effect(m, base, None, None))
    case JumpTrue =>
      var cond :- Read(op.params[0], mem, base);
      if cond != 0 then
        var target :- Read(op.params[1], mem, base);
        var jump :- Target(target);
        Ok(Effect(mem, base, jump, None))
      else Ok(Effect(mem, base, None, None))
    case JumpFalse =>
      var cond :- Read(op.params[0], mem, base);
      if cond == 0 then
        var target :- Read(op.params[1], mem, base);
        var jump :- Target(target);
        Ok(Effect(mem, base, jump, None))
      else Ok(Effect(mem, base, None, None))
    case SetBase =>
      var value :- Read(op.params[0], mem, base);
      Ok(Effect(mem, base + value, None, None))
  }

  /** Add, Multiply, LessThan and Equals read two operands and write
      lhs + rhs, lhs * rhs, lhs < rhs ? 1 : 0 or lhs == rhs ? 1 : 0 through
      the third parameter; they neither jump nor emit. They fail exactly
      when an operand read or the write fails. */
  lemma ExecArithmetic(op: Opcode, mem: seq<int>, pending: seq<int>, base: int)
    requires |op.params| == ArgCount(op.root) && IsArithmetic(op.root)
    ensures Exec(op, mem, pending, base).Ok? <==>
              && Read(op.params[0], mem, base).Ok?
              && Read(op.params[1], mem, base).Ok?
              && op.params[2].mode != Immediate
              && 0 <= Address(op.params[2], base) < |mem|
    ensures Exec(op, mem, pending, base).Ok? ==>
              var e := Exec(op, mem, pending, base).value;
              && e.program == mem[Address(op.params[2], base) :=
                   Combine(op.root, Read(op.params[0], mem, base).value, Read(op.params[1], mem, base).value)]
              && e.jump == None && e.out == None && e.base == base
  {
  }

  /** Input writes the first unconsumed value through its parameter and
      fails when no input is left. */
  lemma ExecInput(op: Opcode, mem: seq<int>, pending: seq<int>, base: int)
    requires |op.params| == ArgCount(op.root) && op.root == Input
    ensures pending == [] ==> Exec(op, mem, pending, base) == Err(InputExhausted)
    ensures Exec(op, mem, pending, base).Ok? ==>
              && pending != []
              && Exec(op, mem, pending, base).value ==
                   Effect(mem[Address(op.params[0], base) := pending[0]], base, None, None)
  {
  }

  /** JumpTrue redirects exactly when its condition is non-zero, JumpFalse
      exactly when it is zero, and then to the second parameter's value;
      neither touches memory. */
  lemma ExecJump(op: Opcode, mem: seq<int>, pending: seq<int>, base: int)
    requires |op.params| == ArgCount(op.root) && IsJump(op.root)
    requires Exec(op, mem, pending, base).Ok?
    ensures Read(op.params[0], mem, base).Ok?
    ensures var e := Exec(op, mem, pending, base).value;
              && (e.jump.Some? <==> Taken(op.root, Read(op.params[0], mem, base).value))
              && (e.jump.Some? ==> Read(op.params[1], mem, base) == Ok(e.jump.value as int))
              && e.program == mem && e.out == None && e.base == base
  {
  }

  /** Output emits the value its parameter reads; SetBase adds it to the
      relative base; Halt changes nothing. */
  lemma ExecOutputSetBaseHalt(op: Opcode, mem: seq<int>, pending: seq<int>, base: int)
    requires |op.params| == ArgCount(op.root)
    requires Exec(op, mem, pending, base).Ok?
    ensures op.root == Output ==>
              Exec(op, mem, pending, base).value == Effect(mem, base, None, Some(Read(op.params[0], mem, base).value))
    ensures op.root == SetBase ==>
              Exec(op, mem, pending, base).value == Effect(mem, base + Read(op.params[0], mem, base).value, None, None)
    ensures op.root == Halt ==> Exec(op, mem, pending, base).value == Effect(mem, base, None, None)
  {
  }

  /** The state of one machine (`ProgramState`). */
  datatype State = State(program: seq<int>, input: seq<int>, inputIdx: nat, pc: nat, relativeBase: int)

  /** A fresh machine: pc, input cursor and relative base at 0. */
  function Initial(program: seq<int>, input: seq<int>): State
  {
    State(program, input, 0, 0, 0)
  }

  /** What `step_prog` returns besides the new state. */
  datatype Stepped = Stepped(state: State, out: Option<int>, halted: bool)

  /** `step_prog`: decode at pc, execute, then move pc to the jump target or
      past the instruction, and advance the input cursor after Input. */
  function Step(v: Version, s: State): (r: Result<Stepped, Fault>)
    ensures r.Ok? ==> s.pc < |s.program| && |r.value.state.program| == |s.program|
    ensures r.Ok? ==> r.value.state.input == s.input && r.value.state.inputIdx <= |s.input|
    ensures r.Ok? && r.value.out.Some? ==> !r.value.halted
  {
    var op :- Decode(v, s.program, s.pc);
    DecodeArity(v, s.program, s.pc);
    if s.inputIdx > |s.input| then Err(InputExhausted)
    else
      var e :- Exec(op, s.program, s.input[s.inputIdx..], s.relativeBase);
      var pc := if e.jump.Some? then e.jump.value else s.pc + 1 + ArgCount(op.root);
      var idx := if op.root == Input then s.inputIdx + 1 else s.inputIdx;
      Ok(Stepped(State(e.program, s.input, idx, pc, e.base), e.out, op.root == Halt))
  }

  /** The rules of `step_prog`, stated against the decoded instruction: pc
      becomes the jump target if there is one and pc + 1 + arg_count
      otherwise; the input cursor grows by one exactly on Input; the machine
      reports halted exactly on Halt. */
  lemma StepRules(v: Version, s: State)
    requires Step(v, s).Ok?
    ensures Decode(v, s.program, s.pc).Ok?
    ensures var op := Decode(v, s.program, s.pc).value;
            var e := Exec(op, s.program, s.input[s.inputIdx..], s.relativeBase);
            var t := Step(v, s).value;
              && e.Ok?
              && t.state.pc == (if e.value.jump.Some? then e.value.jump.value else s.pc + 1 + ArgCount(op.root))
              && (t.state.inputIdx == s.inputIdx + 1 <==> op.root == Input)
              && (op.root != Input ==> t.state.inputIdx == s.inputIdx)
              && (t.halted <==> op.root == Halt)
              && t.out == e.value.out
              && t.state.program == e.value.program && t.state.relativeBase == e.value.base
  {
  }

  /** The outputs a step contributes (`Some(out)` pushes one value). */
  function Emitted(out: Option<int>): seq<int>
  {
    if out.Some? then [out.value] else []
  }

  /** Puts the outputs of earlier steps in front of a run's result. */
  function After(out: seq<int>, r: Result<seq<int>, Fault>): Result<seq<int>, Fault>
  {
    match r
    case Err(e) => Err(e)
    case Ok(rest) => Ok(out + rest)
  }

  /** `run_prog`'s loop: step until a step reports Halt, collecting outputs
      in emission order; at most `fuel` steps. A fresh run is a machine
      that has just taken a silent, non-halting step. */
  function Run(v: Version, s: State, fuel: nat): Result<seq<int>, Fault>
  {
    Continue(v, Stepped(s, None, false), fuel)
  }

  /** The outputs from step `t` on: its own output, then, unless it halted,
      those of the steps after it, with `fuel` steps left. */
  function Continue(v: Version, t: Stepped, fuel: nat): Result<seq<int>, Fault>
    decreases fuel, 0
  {
    if t.halted then Ok(Emitted(t.out))
    else if fuel == 0 then Err(StepLimit)
    else After(Emitted(t.out), Advance(v, t.state, fuel - 1))
  }

  /** Takes one step from `s` and continues from it. */
  function Advance(v: Version, s: State, fuel: nat): Result<seq<int>, Fault>
    decreases fuel, 1
  {
    var t :- Step(v, s);
    Continue(v, t, fuel)
  }

  /** Where `run_until_one` stops: the state, the step's output, whether it
      halted, and the unused step budget. */
  datatype Pause = Pause(state: State, out: Option<int>, halted: bool, fuelLeft: nat)

  /** The `run_until_one` closure: step while steps neither emit nor halt,
      at most `fuel` steps. */
  function RunUntilOne(v: Version, s: State, fuel: nat): (r: Result<Pause, Fault>)
    ensures r.Ok? ==> r.value.fuelLeft < fuel
    ensures r.Ok? ==> r.value.out.Some? || r.value.halted
    ensures r.Ok? ==> r.value.state.input == s.input
  {
    Settle(v, Stepped(s, None, false), fuel)
  }

  /** Where `run_until_one` stops after step `t`, with `fuel` steps left. */
  function Settle(v: Version, t: Stepped, fuel: nat): (r: Result<Pause, Fault>)
    ensures r.Ok? ==> r.value.fuelLeft <= fuel
    ensures r.Ok? ==> r.value.out.Some? || r.value.halted
    ensures r.Ok? ==> r.value.state.input == t.state.input
    decreases fuel, 0
  {
    if t.out.Some? || t.halted then Ok(Pause(t.state, t.out, t.halted, fuel))
    else if fuel == 0 then Err(StepLimit)
    else AdvanceToPause(v, t.state, fuel - 1)
  }

  /** Takes one step from `s` and settles after it. */
  function AdvanceToPause(v: Version, s: State, fuel: nat): (r: Result<Pause, Fault>)
    ensures r.Ok? ==> r.value.fuelLeft <= fuel
    ensures r.Ok? ==> r.value.out.Some? || r.value.halted
    ensures r.Ok? ==> r.value.state.input == s.input
    decreases fuel, 1
  {
    var t :- Step(v, s);
    Settle(v, t, fuel)
  }

  /** One unfolding of `RunUntilOne`: a failing first step fails the
      run; an emitting or halting first step ends it; any other step
      continues it with one unit of budget less. */
  lemma RunUntilOneFirstStep(v: Version, s: State, fuel: nat)
    requires fuel > 0
    ensures Step(v, s).Err? ==> RunUntilOne(v, s, fuel) == Err(Step(v, s).error)
    ensures Step(v, s).Ok? && (Step(v, s).value.out.Some? || Step(v, s).value.halted) ==>
              RunUntilOne(v, s, fuel) == Ok(Pause(Step(v, s).value.state, Step(v, s).value.out, Step(v, s).value.halted, fuel - 1))
    ensures Step(v, s).Ok? && Step(v, s).value.out.None? && !Step(v, s).value.halted ==>
              RunUntilOne(v, s, fuel) == RunUntilOne(v, Step(v, s).value.state, fuel - 1)
  {
    assert RunUntilOne(v, s, fuel) == AdvanceToPause(v, s, fuel - 1);
    if Step(v, s).Ok? {
      var t := Step(v, s).value;
      assert AdvanceToPause(v, s, fuel - 1) == Settle(v, t, fuel - 1);
      if t.out.None? && !t.halted && fuel > 1 {
        assert RunUntilOne(v, t.state, fuel - 1) == AdvanceToPause(v, t.state, fuel - 2);
      }
    }
  }

  /** One unfolding of `Run`, in the same three cases. */
  lemma RunFirstStep(v: Version, s: State, fuel: nat)
    requires fuel > 0
    ensures Step(v, s).Err? ==> Run(v, s, fuel) == Err(Step(v, s).error)
    ensures Step(v, s).Ok? && Step(v, s).value.halted ==> Run(v, s, fuel) == Ok(Emitted(Step(v, s).value.out))
    ensures Step(v, s).Ok? && !Step(v, s).value.halted ==>
              Run(v, s, fuel) == After(Emitted(Step(v, s).value.out), Run(v, Step(v, s).value.state, fuel - 1))
  {
    var rest := Advance(v, s, fuel - 1);
    assert Run(v, s, fuel) == After([], rest);
    AfterNil(rest);
    if Step(v, s).Ok? {
      var t := Step(v, s).value;
      assert rest == Continue(v, t, fuel - 1);
      if !t.halted && fuel > 1 {
        var later := Advance(v, t.state, fuel - 2);
        assert Run(v, t.state, fuel - 1) == After([], later);
        AfterNil(later);
      }
    }
  }

  lemma AfterNil(r: Result<seq<int>, Fault>)
    ensures After([], r) == r
  {
    if r.Ok? {
      assert [] + r.value == r.value;
    }
  }

  /** Resumes a paused machine: a halted one contributes its last output,
      a live one runs on with the remaining budget. */
  function Resume(v: Version, r: Result<Pause, Fault>): Result<seq<int>, Fault>
  {
    match r
    case Err(e) => Err(e)
    case Ok(p) =>
      if p.halted then Ok(Emitted(p.out))
      else After(Emitted(p.out), Run(v, p.state, p.fuelLeft))
  }

  /** Running to Halt is running until the first output or Halt and then,
      if the machine did not halt, running on from there: the full output
      list starts with the value `run_until_one` returns. */
  lemma {:induction false} RunChunks(v: Version, s: State, fuel: nat)
    ensures Run(v, s, fuel) == Resume(v, RunUntilOne(v, s, fuel))
    decreases fuel
  {
    if fuel > 0 {
      RunFirstStep(v, s, fuel);
      RunUntilOneFirstStep(v, s, fuel);
      if Step(v, s).Ok? {
        var t := Step(v, s).value;
        if t.out.None? && !t.halted {
          RunChunks(v, t.state, fuel - 1);
          AfterNil(Run(v, t.state, fuel - 1));
        }
      }
    }
  }
}
