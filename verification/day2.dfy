/** Day 2: the bare Intcode interpreter. Opcodes 1 (add) and 2 (multiply)
    take three Position operands and advance pc by 4; 99 halts with cell 0.
    `run_prog` works in place on the program, here an array. */
module Day2 {
  import opened Wrappers
  import opened IntcodeTypes
  import opened NounVerb

  /** What one step of day 2 does: halt with cell 0, or move on with new
      memory and pc. */
  datatype Outcome = Halted(value: int) | Moved(mem: seq<int>, pc: nat)

  /** `program[i]` as an index into the program: a negative value becomes
      a huge `usize`, so both ends are out of bounds. */
  function Cell(mem: seq<int>, i: int): Result<int, Fault>
  {
    if 0 <= i < |mem| then Ok(mem[i]) else Err(OutOfBounds(i))
  }

  /** One iteration of `run_prog`'s loop at `pc`. */
  function Step(mem: seq<int>, pc: nat): Result<Outcome, Fault>
  {
    var word :- Cell(mem, pc);
    if word == 1 || word == 2 then
      var a :- Cell(mem, pc + 1);
      var lhs :- Cell(mem, a);
      var b :- Cell(mem, pc + 2);
      var rhs :- Cell(mem, b);
      var dest :- Cell(mem, pc + 3);
      var _ :- Cell(mem, dest);
      Ok(Moved(mem[dest := if word == 1 then lhs + rhs else lhs * rhs], pc + 4))
    else if word == 99 then Ok(Halted(mem[0]))
    else Err(InvalidOpcode(word))
  }

  /** Opcode 1 stores m[m[pc+1]] + m[m[pc+2]] at m[pc+3], opcode 2 the
      product, and both move pc by 4; 99 halts with m[0]; any other opcode
      fails. A step changes at most the one destination cell and never the
      memory's length. */
  lemma StepRules(mem: seq<int>, pc: nat)
    requires pc < |mem|
    ensures mem[pc] == 99 ==> Step(mem, pc) == Ok(Halted(mem[0]))
    ensures mem[pc] != 1 && mem[pc] != 2 && mem[pc] != 99 ==> Step(mem, pc) == Err(InvalidOpcode(mem[pc]))
    ensures (mem[pc] == 1 || mem[pc] == 2) && Step(mem, pc).Ok? ==>
              && pc + 3 < |mem|
              && 0 <= mem[pc + 1] < |mem| && 0 <= mem[pc + 2] < |mem| && 0 <= mem[pc + 3] < |mem|
              && var lhs, rhs := mem[mem[pc + 1]], mem[mem[pc + 2]];
                 Step(mem, pc) == Ok(Moved(mem[mem[pc + 3] := if mem[pc] == 1 then lhs + rhs else lhs * rhs], pc + 4))
    ensures Step(mem, pc).Ok? && Step(mem, pc).value.Moved? ==>
              var m := Step(mem, pc).value.mem;
              && |m| == |mem|
              && forall i :: 0 <= i < |mem| && i != mem[pc + 3] ==> m[i] == mem[i]
  {
  }

  /** `run_prog` from `pc`: step until 99, at most `fuel` steps. */
  function Run(mem: seq<int>, pc: nat, fuel: nat): Result<int, Fault>
    decreases fuel
  {
    if fuel == 0 then Err(StepLimit)
    else
      var o :- Step(mem, pc);
      match o
      case Halted(value) => Ok(value)
      case Moved(next, pc') => Run(next, pc', fuel - 1)
  }

  /** The memory and pc at which `run_prog` from `pc` reaches opcode 99,
      within `fuel` steps; a failing step or running out fails the same way
      `Run` does. */
  function HaltState(mem: seq<int>, pc: nat, fuel: nat): Result<(seq<int>, nat), Fault>
    decreases fuel
  {
    if fuel == 0 then Err(StepLimit)
    else
      var o :- Step(mem, pc);
      match o
      case Halted(_) => Ok((mem, pc))
      case Moved(next, pc') => HaltState(next, pc', fuel - 1)
  }

  /** A run succeeds exactly when it reaches a halting state, and then
      returns cell 0 of the memory it halts in, which has the original
      length and holds 99 at the halting pc; a failing run fails with the
      same fault. */
  lemma {:induction false} RunEndsAtHalt(mem: seq<int>, pc: nat, fuel: nat)
    ensures Run(mem, pc, fuel).Ok? <==> HaltState(mem, pc, fuel).Ok?
    ensures Run(mem, pc, fuel).Err? ==> HaltState(mem, pc, fuel) == Err(Run(mem, pc, fuel).error)
    ensures HaltState(mem, pc, fuel).Ok? ==>
              var (m, p) := HaltState(mem, pc, fuel).value;
              |m| == |mem| && p < |m| && m[p] == 99 && Run(mem, pc, fuel) == Ok(m[0])
    decreases fuel
  {
    if fuel > 0 && Step(mem, pc).Ok? {
      var o := Step(mem, pc).value;
      StepRules(mem, pc);
      if o.Moved? {
        RunEndsAtHalt(o.mem, o.pc, fuel - 1);
      } else {
        assert mem[pc] == 99;
      }
    }
  }

  /** `run_prog`: the loop over `pc`, changing the program in place. */
  method RunProg(program: array<int>, fuel: nat) returns (r: Result<int, Fault>)
    modifies program
    ensures r == Run(old(program[..]), 0, fuel)
  {
    var pc: nat := 0;
    var left := fuel;
    while true
      invariant Run(old(program[..]), 0, fuel) == Run(program[..], pc, left)
      decreases left
    {
      if left == 0 {
        return Err(StepLimit);
      }
      ghost var mem := program[..];
      if pc >= program.Length {
        return Err(OutOfBounds(pc));
      }
      var word := program[pc];
      if word == 1 || word == 2 {
        if pc + 1 >= program.Length {
          return Err(OutOfBounds(pc + 1));
        }
        var a := program[pc + 1];
        if a < 0 || a >= program.Length {
          return Err(OutOfBounds(a));
        }
        if pc + 2 >= program.Length {
          return Err(OutOfBounds(pc + 2));
        }
        var b := program[pc + 2];
        if b < 0 || b >= program.Length {
          return Err(OutOfBounds(b));
        }
        if pc + 3 >= program.Length {
          return Err(OutOfBounds(pc + 3));
        }
        var dest := program[pc + 3];
        if dest < 0 || dest >= program.Length {
          return Err(OutOfBounds(dest));
        }
        var value := if word == 1 then program[a] + program[b] else program[a] * program[b];
        program[dest] := value;
        pc := pc + 4;
        left := left - 1;
      } else if word == 99 {
        return Ok(program[0]);
      } else {
        return Err(InvalidOpcode(word));
      }
    }
  }

  /** `run_with_args` on a fresh copy: noun and verb in cells 1 and 2, then
      run. */
  function EndValue(program: seq<int>, noun: int, verb: int, fuel: nat): Result<int, Fault>
  {
    var p :- SetArgs(noun, verb, program);
    Run(p, 0, fuel)
  }

  /** `run_with_args`: writes only cells 1 and 2 of `p`, then runs it. */
  method RunWithArgs(noun: int, verb: int, p: array<int>, fuel: nat) returns (r: Result<int, Fault>)
    modifies p
    ensures r == EndValue(old(p[..]), noun, verb, fuel)
  {
    if p.Length < 2 {
      return Err(OutOfBounds(1));
    }
    if p.Length < 3 {
      return Err(OutOfBounds(2));
    }
    p[1] := noun;
    p[2] := verb;
    assert p[..] == SetArgs(noun, verb, old(p[..])).value;
    r := RunProg(p, fuel);
  }

  /** The run of each (noun, verb) pair. */
  function Results(program: seq<int>, fuel: nat): (nat, nat) -> Result<int, Fault>
  {
    (noun: nat, verb: nat) => EndValue(program, noun, verb, fuel)
  }

  /** `find_end_value`: the first pair, in row-major order, whose run ends
      with 19690720. */
  method FindEndValue(program: seq<int>, fuel: nat) returns (r: Result<(nat, nat), Fault>)
    ensures r == Scan(Results(program, fuel), 0, 0)
  {
    ghost var results := Results(program, fuel);
    for noun := 0 to 100
      invariant Scan(results, 0, 0) == Scan(results, noun, 0)
    {
      for verb := 0 to 100
        invariant Scan(results, 0, 0) == Scan(results, noun, verb)
      {
        var p := new int[|program|](i requires 0 <= i < |program| => program[i]);
        assert p[..] == program;
        var result := RunWithArgs(noun, verb, p, fuel);
        ScanStep(results, noun, verb);
        if result.Err? {
          return Err(result.error);
        }
        if result.value == Goal {
          return Ok((noun, verb));
        }
      }
      ScanStep(results, noun, 100);
    }
    return Err(NoAnswer);
  }
}
