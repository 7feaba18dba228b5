/** The instruction decoder: splitting the opcode word into decimal digits
    and turning the cells at the program counter into an `Opcode`. */
module IntcodeDecode {
  import opened Wrappers
  import opened IntcodeTypes

  /** The decimal digits of `value`, least significant first (0 has none). */
  function Digits(value: nat): (ds: seq<nat>)
    ensures forall i :: 0 <= i < |ds| ==> ds[i] < 10
    ensures value == 0 <==> ds == []
    ensures ds != [] ==> ds[|ds| - 1] != 0
    decreases value
  {
    if value == 0 then [] else [value % 10] + Digits(value / 10)
  }

  /** Recombines digits given least significant first. */
  function FromDigits(ds: seq<nat>): nat
  {
    if ds == [] then 0 else ds[0] + 10 * FromDigits(ds[1..])
  }

  function Pow10(k: nat): (p: nat)
    ensures p >= 1
  {
    if k == 0 then 1 else 10 * Pow10(k - 1)
  }

  /** Digit `k` of a digit list, with missing digits read as 0
      (the source pads to two digits and then chains an endless run of zeros). */
  function DigitOr0(ds: seq<nat>, k: nat): nat
  {
    if k < |ds| then ds[k] else 0
  }

  /** Recombining the digits gives the value back. */
  lemma {:induction false} DigitsRoundTrip(value: nat)
    ensures FromDigits(Digits(value)) == value
    decreases value
  {
    if value != 0 {
      DigitsRoundTrip(value / 10);
      assert Digits(value)[1..] == Digits(value / 10);
    }
  }

  /** Digit `k` of the list is the arithmetic digit `k` of the value. */
  lemma {:induction false} DigitAt(value: nat, k: nat)
    ensures DigitOr0(Digits(value), k) == (value / Pow10(k)) % 10
    decreases k
  {
    if k == 0 {
      assert Pow10(0) == 1;
    } else if value == 0 {
      assert 0 / Pow10(k) == 0;
    } else {
      var p := Pow10(k - 1);
      DigitAt(value / 10, k - 1);
      DivDiv(value, 10, p);
      assert Pow10(k) == 10 * p;
      assert DigitOr0(Digits(value), k) == DigitOr0(Digits(value / 10), k - 1);
    }
  }

  lemma DivUnique(a: int, d: int, q: int, r: int)
    requires d > 0 && 0 <= r < d && a == d * q + r
    ensures a / d == q && a % d == r
  {
    var x := q - a / d;
    assert d * x == a % d - r;
  }

  lemma DivDiv(a: nat, b: nat, c: nat)
    requires b > 0 && c > 0
    ensures a / b / c == a / (b * c)
  {
    var q, r := a / b, a % b;
    var q2, r2 := q / c, q % c;
    MulShape(a, b, c, q, r, q2, r2);
    DivUnique(a, b * c, q2, b * r2 + r);
  }

  lemma MulShape(a: int, b: int, c: int, q: int, r: int, q2: int, r2: int)
    requires b > 0 && c > 0 && 0 <= r < b && 0 <= r2 < c
    requires a == b * q + r && q == c * q2 + r2
    ensures a == (b * c) * q2 + (b * r2 + r)
    ensures 0 <= b * r2 + r < b * c
  {
    MulAddAssoc(b, c, q2, r2);
    MulBelow(b, c, r2);
  }

  lemma MulAddAssoc(b: int, c: int, q2: int, r2: int)
    ensures b * (c * q2 + r2) == (b * c) * q2 + b * r2
  {
  }

  lemma MulBelow(b: int, c: int, r2: int)
    requires b > 0 && 0 <= r2 < c
    ensures 0 <= b * r2 && b * r2 + b <= b * c
  {
    assert b * c - b * r2 - b == b * (c - r2 - 1);
    MulNonneg(b, c - r2 - 1);
    MulNonneg(b, r2);
  }

  lemma {:induction false} MulNonneg(x: int, y: int)
    requires x >= 0 && y >= 0
    ensures x * y >= 0
    decreases y
  {
    if y > 0 {
      MulNonneg(x, y - 1);
      assert x * y == x * (y - 1) + x;
    }
  }

  /** The two lowest digits form the opcode id. */
  lemma IdIsLowTwoDigits(value: nat)
    ensures DigitOr0(Digits(value), 0) + 10 * DigitOr0(Digits(value), 1) == value % 100
  {
    DigitAt(value, 0);
    DigitAt(value, 1);
    var a := value % 10;
    var b := (value / 10) % 10;
    var q := value / 100;
    DivDiv(value, 10, 10);
    assert value / 10 == 10 * q + b;
    assert value == 100 * q + (10 * b + a);
  }

  /** `get_digits`: pushes `value % 10` and divides by 10 until the value is 0. */
  method GetDigits(value: nat) returns (result: seq<nat>)
    ensures result == Digits(value)
  {
    result := [];
    var rest := value;
    while rest != 0
      invariant result + Digits(rest) == Digits(value)
    {
      PushDigit(result, rest);
      result, rest := result + [rest % 10], rest / 10;
    }
    assert result + [] == result;
  }

  /** One iteration of `get_digits` moves the lowest digit of the rest to
      the end of the result. */
  lemma PushDigit(result: seq<nat>, rest: nat)
    requires rest != 0
    ensures result + Digits(rest) == (result + [rest % 10]) + Digits(rest / 10)
  {
    assert Digits(rest) == [rest % 10] + Digits(rest / 10);
  }

  /** The mode digit of parameter `i`: digit i + 2 of the opcode word. */
  function ParamDigit(ds: seq<nat>, i: nat): nat
  {
    DigitOr0(ds, i + 2)
  }

  /** Pairs raw parameters `i..` with the modes their digits select. The
      first digit that names no mode of the revision fails. */
  function DecodeParams(v: Version, ds: seq<nat>, raws: seq<int>, i: nat): (r: Result<seq<Param>, Fault>)
    requires i <= |raws|
    ensures r.Ok? ==> |r.value| == |raws| - i
    decreases |raws| - i
  {
    if i == |raws| then Ok([])
    else
      match ModeOf(v, ParamDigit(ds, i))
      case None => Err(InvalidMode(ParamDigit(ds, i)))
      case Some(m) =>
        match DecodeParams(v, ds, raws, i + 1)
        case Err(e) => Err(e)
        case Ok(rest) => Ok([Param(m, raws[i])] + rest)
  }

  /** `Opcode::parse` applied to `&program[pc..]`. */
  function Decode(v: Version, mem: seq<int>, pc: nat): Result<Opcode, Fault>
  {
    if pc >= |mem| then Err(PcOutOfRange(pc))
    else if mem[pc] < 0 || mem[pc] > U32_MAX then Err(WordNotU32(mem[pc]))
    else
      var ds := Digits(mem[pc]);
      var id := DigitOr0(ds, 0) + 10 * DigitOr0(ds, 1);
      match RootOf(v, id)
      case None => Err(InvalidRoot(id))
      case Some(root) => DecodeOperands(v, ds, mem, pc, root)
  }

  /** The parameters of `root` at pc: the next `ArgCount(root)` cells, which
      must lie inside memory, paired with the modes of digits 2 on. */
  function DecodeOperands(v: Version, ds: seq<nat>, mem: seq<int>, pc: nat, root: OpcodeRoot): Result<Opcode, Fault>
  {
    if pc + 1 + ArgCount(root) > |mem| then Err(MissingParams)
    else
      match DecodeParams(v, ds, mem[pc + 1 .. pc + 1 + ArgCount(root)], 0)
      case Err(e) => Err(e)
      case Ok(params) => Ok(Opcode(root, params))
  }

  /** The mode digit of parameter i of an opcode word, arithmetically. */
  function ModeDigit(word: nat, i: nat): nat
  {
    (word / Pow10(i + 2)) % 10
  }

  /** The mode digits of the first `n` parameters all name modes of the revision. */
  predicate ModesValid(v: Version, word: nat, n: nat)
  {
    forall i :: 0 <= i < n ==> ModeOf(v, ModeDigit(word, i)).Some?
  }

  /** DecodeParams in closed form: it succeeds exactly when every digit
      names a mode, and then parameter j pairs raw value i + j with the mode
      of its digit. */
  lemma {:induction false} DecodeParamsClosed(v: Version, ds: seq<nat>, raws: seq<int>, i: nat)
    requires i <= |raws|
    ensures DecodeParams(v, ds, raws, i).Ok? <==>
              forall j :: i <= j < |raws| ==> ModeOf(v, ParamDigit(ds, j)).Some?
    ensures DecodeParams(v, ds, raws, i).Ok? ==>
              forall j :: i <= j < |raws| ==>
                DecodeParams(v, ds, raws, i).value[j - i] == Param(ModeOf(v, ParamDigit(ds, j)).value, raws[j])
    decreases |raws| - i
  {
    if i < |raws| {
      DecodeParamsClosed(v, ds, raws, i + 1);
    }
  }

  /** What a successful decode at pc looks like: the root comes from the
      two lowest digits, there are exactly `ArgCount(root)` parameters, and
      parameter i is the cell at pc + 1 + i with the mode of digit i + 2. */
  predicate DecodedShape(v: Version, mem: seq<int>, pc: nat, op: Opcode)
  {
    && pc < |mem| && 0 <= mem[pc]
    && RootOf(v, mem[pc] % 100) == Some(op.root)
    && |op.params| == ArgCount(op.root)
    && pc + 1 + |op.params| <= |mem|
    && ModesValid(v, mem[pc], |op.params|)
    && forall i :: 0 <= i < |op.params| ==>
         op.params[i] == Param(ModeOf(v, ModeDigit(mem[pc], i)).value, mem[pc + 1 + i])
  }

  /** The decoder in arithmetic terms: it succeeds exactly when pc is inside
      memory, the word is a u32, its two lowest digits name a root, the
      root's parameters fit in memory and each of their mode digits names a
      mode (missing digits are Position). */
  lemma DecodeOkIff(v: Version, mem: seq<int>, pc: nat)
    ensures Decode(v, mem, pc).Ok? <==>
              && pc < |mem| && 0 <= mem[pc] <= U32_MAX
              && RootOf(v, mem[pc] % 100).Some?
              && pc + 1 + ArgCount(RootOf(v, mem[pc] % 100).value) <= |mem|
              && ModesValid(v, mem[pc], ArgCount(RootOf(v, mem[pc] % 100).value))
  {
    if pc < |mem| && 0 <= mem[pc] <= U32_MAX {
      IdIsLowTwoDigits(mem[pc]);
      var root := RootOf(v, mem[pc] % 100);
      if root.Some? && pc + 1 + ArgCount(root.value) <= |mem| {
        DecodeModes(v, mem, pc);
      }
    }
  }

  /** Once the word, its root and the parameter cells are in place, the
      decode succeeds exactly when the mode digits are valid. */
  lemma DecodeModes(v: Version, mem: seq<int>, pc: nat)
    requires pc < |mem| && 0 <= mem[pc] <= U32_MAX
    requires RootOf(v, mem[pc] % 100).Some? && pc + 1 + ArgCount(RootOf(v, mem[pc] % 100).value) <= |mem|
    ensures Decode(v, mem, pc).Ok? <==> ModesValid(v, mem[pc], ArgCount(RootOf(v, mem[pc] % 100).value))
  {
    var w: nat := mem[pc];
    IdIsLowTwoDigits(w);
    var n := ArgCount(RootOf(v, w % 100).value);
    var raws := mem[pc + 1 .. pc + 1 + n];
    DecodeParamsClosed(v, Digits(w), raws, 0);
    ModesValidDigits(v, w, n);
  }

  /** `ModesValid` through the digit list. */
  lemma ModesValidDigits(v: Version, w: nat, n: nat)
    ensures ModesValid(v, w, n) <==> forall j :: 0 <= j < n ==> ModeOf(v, ParamDigit(Digits(w), j)).Some?
  {
    ParamDigitsAgree(w, n);
    if ModesValid(v, w, n) {
      forall j | 0 <= j < n
        ensures ModeOf(v, ParamDigit(Digits(w), j)).Some?
      {
        assert ParamDigit(Digits(w), j) == ModeDigit(w, j);
      }
    } else {
      var j :| 0 <= j < n && ModeOf(v, ModeDigit(w, j)).None?;
      assert ParamDigit(Digits(w), j) == ModeDigit(w, j);
    }
  }

  /** A successful decode has the shape `DecodedShape` describes. */
  lemma DecodeOkShape(v: Version, mem: seq<int>, pc: nat)
    requires Decode(v, mem, pc).Ok?
    ensures DecodedShape(v, mem, pc, Decode(v, mem, pc).value)
  {
    var w: nat := mem[pc];
    IdIsLowTwoDigits(w);
    DecodeModes(v, mem, pc);
    var root := RootOf(v, w % 100).value;
    var op := Decode(v, mem, pc).value;
    assert op == DecodeOperands(v, Digits(w), mem, pc, root).value;
    OperandsShape(v, Digits(w), mem, pc, root);
    ParamDigitsAgree(w, ArgCount(root));
  }

  /** Decoded parameter i is the cell at pc + 1 + i with the mode of
      parameter digit i. */
  lemma OperandsShape(v: Version, ds: seq<nat>, mem: seq<int>, pc: nat, root: OpcodeRoot)
    requires DecodeOperands(v, ds, mem, pc, root).Ok?
    ensures var op := DecodeOperands(v, ds, mem, pc, root).value;
            && op.root == root && |op.params| == ArgCount(root) && pc + 1 + ArgCount(root) <= |mem|
            && forall i :: 0 <= i < |op.params| ==>
                 && ModeOf(v, ParamDigit(ds, i)).Some?
                 && op.params[i] == Param(ModeOf(v, ParamDigit(ds, i)).value, mem[pc + 1 + i])
  {
    var raws := mem[pc + 1 .. pc + 1 + ArgCount(root)];
    DecodeParamsClosed(v, ds, raws, 0);
    var params := DecodeOperands(v, ds, mem, pc, root).value.params;
    forall i | 0 <= i < |params|
      ensures ModeOf(v, ParamDigit(ds, i)).Some?
      ensures params[i] == Param(ModeOf(v, ParamDigit(ds, i)).value, mem[pc + 1 + i])
    {
      assert params[i - 0] == Param(ModeOf(v, ParamDigit(ds, i)).value, raws[i]);
    }
  }

  /** The digit-list and arithmetic views of the mode digits agree. */
  lemma ParamDigitsAgree(w: nat, n: nat)
    ensures forall i :: 0 <= i < n ==> ParamDigit(Digits(w), i) == ModeDigit(w, i)
  {
    forall i | 0 <= i < n
      ensures ParamDigit(Digits(w), i) == ModeDigit(w, i)
    {
      DigitAt(w, i + 2);
    }
  }

  /** The example of the puzzle text: the word 1002 is Multiply with modes
      Position, Immediate, Position over the next three cells. */
  lemma Decode1002(v: Version, mem: seq<int>, pc: nat)
    requires pc + 3 < |mem| && mem[pc] == 1002
    ensures Decode(v, mem, pc) ==
              Ok(Opcode(Multiply, [Param(Position, mem[pc + 1]), Param(Immediate, mem[pc + 2]), Param(Position, mem[pc + 3])]))
  {
    Decode1002Ok(v, mem, pc);
    DecodeOkShape(v, mem, pc);
    Shape1002(v, mem, pc, Decode(v, mem, pc).value);
  }

  lemma Decode1002Ok(v: Version, mem: seq<int>, pc: nat)
    requires pc + 3 < |mem| && mem[pc] == 1002
    ensures Decode(v, mem, pc).Ok?
  {
    Word1002(v);
    DecodeOkIff(v, mem, pc);
  }

  lemma Word1002(v: Version)
    ensures RootOf(v, 1002 % 100) == Some(Multiply) && ArgCount(Multiply) == 3
    ensures ModesValid(v, 1002, 3)
  {
    DivUnique(1002, 100, 10, 2);
    ModeDigitsOf1002();
    forall i | 0 <= i < 3
      ensures ModeOf(v, ModeDigit(1002, i)).Some?
    {
      var d := ModeDigit(1002, i);
      assert d == 0 || d == 1 by {
        if i == 0 {
        } else if i == 1 {
        } else {
          assert i == 2;
        }
      }
      assert ModeOf(v, d).Some?;
    }
  }

  lemma ModeDigitsOf1002()
    ensures ModeDigit(1002, 0) == 0 && ModeDigit(1002, 1) == 1 && ModeDigit(1002, 2) == 0
  {
    assert Pow10(2) == 100 by {
      assert Pow10(1) == 10;
    }
    assert Pow10(3) == 1000;
    assert Pow10(4) == 10000;
    DivUnique(1002, 100, 10, 2);
    DivUnique(1002, 1000, 1, 2);
    DivUnique(1002, 10000, 0, 1002);
  }

  lemma Shape1002(v: Version, mem: seq<int>, pc: nat, op: Opcode)
    requires DecodedShape(v, mem, pc, op)
    requires pc + 3 < |mem| && mem[pc] == 1002
    ensures op == Opcode(Multiply, [Param(Position, mem[pc + 1]), Param(Immediate, mem[pc + 2]), Param(Position, mem[pc + 3])])
  {
    DivUnique(1002, 100, 10, 2);
    ModeDigitsOf1002();
    assert op.root == Multiply;
    assert |op.params| == 3;
    var w := mem[pc];
    assert op.params[0] == Param(ModeOf(v, ModeDigit(w, 0)).value, mem[pc + 1]);
    assert op.params[1] == Param(ModeOf(v, ModeDigit(w, 1)).value, mem[pc + 2]);
    assert op.params[2] == Param(ModeOf(v, ModeDigit(w, 2)).value, mem[pc + 3]);
    ThreeParams(op.params);
  }

  lemma ThreeParams(ps: seq<Param>)
    requires |ps| == 3
    ensures ps == [ps[0], ps[1], ps[2]]
  {
  }

  /** Days 5 and 7 have no Relative mode: a mode digit of 2 (or more) in a
      parameter position makes the decode fail. */
  lemma NoRelativeBeforeDay9(v: Version, mem: seq<int>, pc: nat, i: nat)
    requires v != Day9
    requires pc < |mem| && 0 <= mem[pc] <= U32_MAX
    requires RootOf(v, mem[pc] % 100).Some? && i < ArgCount(RootOf(v, mem[pc] % 100).value)
    requires ModeDigit(mem[pc], i) >= 2
    ensures Decode(v, mem, pc).Err?
  {
    DecodeOkIff(v, mem, pc);
  }

  /** A decoded instruction carries exactly `arg_count` parameters, all
      inside memory, and its root belongs to the version. */
  lemma DecodeArity(v: Version, mem: seq<int>, pc: nat)
    requires Decode(v, mem, pc).Ok?
    ensures var op := Decode(v, mem, pc).value;
              |op.params| == ArgCount(op.root) && pc + 1 + ArgCount(op.root) <= |mem| && Knows(v, op.root)
  {
  }

  /** Puts decoded parameters in front of a decode result. */
  function Prepend(params: seq<Param>, r: Result<seq<Param>, Fault>): Result<seq<Param>, Fault>
  {
    match r
    case Err(e) => Err(e)
    case Ok(rest) => Ok(params + rest)
  }

  lemma PrependAppend(params: seq<Param>, p: Param, r: Result<seq<Param>, Fault>)
    ensures Prepend(params, Prepend([p], r)) == Prepend(params + [p], r)
  {
    if r.Ok? {
      assert params + ([p] + r.value) == (params + [p]) + r.value;
    }
  }

  /** DecodeParams reads digits only through `DigitOr0`, so padding the
      digit list with zeros changes nothing. */
  lemma {:induction false} DecodeParamsPadded(v: Version, ds: seq<nat>, padded: seq<nat>, raws: seq<int>, i: nat)
    requires i <= |raws|
    requires forall k :: DigitOr0(padded, k) == DigitOr0(ds, k)
    ensures DecodeParams(v, padded, raws, i) == DecodeParams(v, ds, raws, i)
    decreases |raws| - i
  {
    if i < |raws| {
      DecodeParamsPadded(v, ds, padded, raws, i + 1);
      assert ParamDigit(padded, i) == ParamDigit(ds, i);
    }
  }

  lemma PadToTwo(ds: seq<nat>, padded: seq<nat>)
    requires padded == ds || (|ds| < 2 && padded == ds + seq(2 - |ds|, _ => 0))
    ensures |padded| >= |ds|
    ensures forall k :: DigitOr0(padded, k) == DigitOr0(ds, k)
  {
  }

  /** `Opcode::parse`: takes the digits of the opcode word, pads them to two,
      looks up the root and zips the next `arg_count` cells with the modes of
      the remaining digits (then endless zeros). */
  method Parse(v: Version, mem: seq<int>, pc: nat) returns (r: Result<Opcode, Fault>)
    ensures r == Decode(v, mem, pc)
  {
    if pc >= |mem| {
      return Err(PcOutOfRange(pc));
    }
    var word := mem[pc];
    if word < 0 || word > U32_MAX {
      return Err(WordNotU32(word));
    }
    var codeDigits := GetDigits(word);
    ghost var ds := codeDigits;
    if |codeDigits| < 2 {
      codeDigits := codeDigits + seq(2 - |codeDigits|, _ => 0);
    }
    PadToTwo(ds, codeDigits);
    var id := codeDigits[0] + 10 * codeDigits[1];
    var root := RootOf(v, id);
    if root.None? {
      return Err(InvalidRoot(id));
    }
    var n := ArgCount(root.value);
    if pc + 1 + n > |mem| {
      return Err(MissingParams);
    }
    var params := ZipModes(v, codeDigits, mem[pc + 1 .. pc + 1 + n]);
    DecodeParamsPadded(v, ds, codeDigits, mem[pc + 1 .. pc + 1 + n], 0);
    assert DecodeParams(v, ds, mem[pc + 1 .. pc + 1 + n], 0) == params;
    if params.Err? {
      return Err(params.error);
    }
    return Ok(Opcode(root.value, params.value));
  }

  /** The `for` loop of `Opcode::parse`: pairs each raw cell with the mode
      its digit selects, failing at the first digit that names no mode. */
  method ZipModes(v: Version, codeDigits: seq<nat>, raws: seq<int>) returns (r: Result<seq<Param>, Fault>)
    ensures r == DecodeParams(v, codeDigits, raws, 0)
  {
    var params: seq<Param> := [];
    assert Prepend(params, DecodeParams(v, codeDigits, raws, 0)) == DecodeParams(v, codeDigits, raws, 0) by {
      if DecodeParams(v, codeDigits, raws, 0).Ok? {
        assert params + DecodeParams(v, codeDigits, raws, 0).value == DecodeParams(v, codeDigits, raws, 0).value;
      }
    }
    var i := 0;
    while i < |raws|
      invariant 0 <= i <= |raws|
      invariant DecodeParams(v, codeDigits, raws, 0) == Prepend(params, DecodeParams(v, codeDigits, raws, i))
    {
      var d := if i + 2 < |codeDigits| then codeDigits[i + 2] else 0;
      assert d == ParamDigit(codeDigits, i);
      var mode := ModeOf(v, d);
      if mode.None? {
        return Err(InvalidMode(d));
      }
      var p := Param(mode.value, raws[i]);
      assert DecodeParams(v, codeDigits, raws, i) == Prepend([p], DecodeParams(v, codeDigits, raws, i + 1));
      PrependAppend(params, p, DecodeParams(v, codeDigits, raws, i + 1));
      params := params + [p];
      i := i + 1;
    }
    assert params + [] == params;
    return Ok(params);
  }
}
