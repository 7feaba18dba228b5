/** The vocabulary of the Intcode machine: revisions, addressing modes,
    opcode roots, decoded instructions and the failures of a run. */
module IntcodeTypes {
  import opened Wrappers

  /** The three revisions of the machine. Days 5 and 7 know Position and
      Immediate mode and opcodes 1-8 and 99; day 9 adds Relative mode and
      opcode 9 (SetBase). */
  datatype Version = Day5 | Day7 | Day9

  datatype ParamMode = Position | Immediate | Relative

  datatype OpcodeRoot =
    | Add | Multiply | Input | Output | JumpTrue | JumpFalse
    | LessThan | Equals | SetBase | Halt

  /** One parameter: its addressing mode and the raw cell value after the opcode word. */
  datatype Param = Param(mode: ParamMode, raw: int)

  /** A decoded instruction. */
  datatype Opcode = Opcode(root: OpcodeRoot, params: seq<Param>)

  /** Everything that makes the source panic, plus the step bound of the model. */
  datatype Fault =
    | PcOutOfRange(pc: nat)          // `&program[pc..]` or `data[0]` out of range
    | WordNotU32(word: int)          // `u32::try_from(data[0]).unwrap()`
    | InvalidRoot(id: nat)           // "Invalid root"
    | InvalidOpcode(word: int)       // day 2's "Invalid opcode"
    | MissingParams                  // `data[1..][0..arg_count]` out of range
    | InvalidMode(digit: nat)        // `ParamMode::from_u32(d).unwrap()`
    | OutOfBounds(address: int)      // indexing memory (or the program vector) out of range
    | ImmediateWrite                 // "Cannot write to immediate"
    | InputExhausted                 // `input.next().unwrap()`
    | NegativeJump(target: int)      // a jump target that is not a valid usize
    | MissingAmplifier(index: nat)   // `programs[i]` with fewer than five phases
    | WrongPhaseCount(count: nat)    // `assert_eq!(sequence.len(), 5)`
    | WrongOutputCount(count: nat)   // `assert_eq!(new_output.len(), 1)`
    | NoAnswer                       // `unreachable!()` after an exhausted search
    | StepLimit                      // the model's bound on the number of steps

  /** Largest value `u32::try_from` accepts. */
  const U32_MAX: int := 4294967295

  /** Number of parameters that follow each opcode word. */
  function ArgCount(root: OpcodeRoot): nat
  {
    match root
    case Multiply => 3
    case Add => 3
    case Input => 1
    case Output => 1
    case JumpTrue => 2
    case JumpFalse => 2
    case LessThan => 3
    case Equals => 3
    case SetBase => 1
    case Halt => 0
  }

  /** The numeric id of each root (its discriminant in the source enum). */
  function RootId(root: OpcodeRoot): nat
  {
    match root
    case Add => 1
    case Multiply => 2
    case Input => 3
    case Output => 4
    case JumpTrue => 5
    case JumpFalse => 6
    case LessThan => 7
    case Equals => 8
    case SetBase => 9
    case Halt => 99
  }

  /** Whether a revision knows a root: SetBase exists only on day 9. */
  predicate Knows(v: Version, root: OpcodeRoot)
  {
    root == SetBase ==> v == Day9
  }

  /** `OpcodeRoot::from_u32`, restricted to the roots the revision defines. */
  function RootOf(v: Version, id: nat): (r: Option<OpcodeRoot>)
    ensures r.Some? ==> RootId(r.value) == id && Knows(v, r.value)
  {
    if id == 1 then Some(Add)
    else if id == 2 then Some(Multiply)
    else if id == 3 then Some(Input)
    else if id == 4 then Some(Output)
    else if id == 5 then Some(JumpTrue)
    else if id == 6 then Some(JumpFalse)
    else if id == 7 then Some(LessThan)
    else if id == 8 then Some(Equals)
    else if id == 9 && v == Day9 then Some(SetBase)
    else if id == 99 then Some(Halt)
    else None
  }

  /** The numeric id of each mode. */
  function ModeId(m: ParamMode): nat
  {
    match m
    case Position => 0
    case Immediate => 1
    case Relative => 2
  }

  /** `ParamMode::from_u32` of the revision: Relative (2) exists only on day 9. */
  function ModeOf(v: Version, digit: nat): (r: Option<ParamMode>)
    ensures r.Some? <==> digit <= (if v == Day9 then 2 else 1)
    ensures r.Some? ==> ModeId(r.value) == digit
  {
    if digit == 0 then Some(Position)
    else if digit == 1 then Some(Immediate)
    else if digit == 2 && v == Day9 then Some(Relative)
    else None
  }

  /** Decoding a root id and encoding it again are inverse on the roots a revision knows. */
  lemma RootRoundTrip(v: Version, root: OpcodeRoot)
    requires Knows(v, root)
    ensures RootOf(v, RootId(root)) == Some(root)
  {
  }
}
