/**
  The part of LLVM IR that the code generator emits, with the meaning the LLVM
  language reference gives to it: typed operands, basic blocks kept in an arena
  and named by their index, and a machine that runs one instruction at a time.
  A machine state without a defined successor is Stuck.
*/
module ThlangIr {
  import opened TruncatedDivision
  import opened TwosComplement
  import opened Wrappers

  type BlockId = nat

  datatype Type = I1 | I32 | Pointer

  datatype Operand =
    | Const(ty: Type, bits: nat)
    | Arg(index: nat)
    | Temp(id: nat, tty: Type)

  datatype BinKind = BAdd | BSub | BMul | BSDiv | BAnd | BOr | BXor | BShl | BAShr
  datatype Predicate = ULT | SLE | SGE | SGT | EQ | NE

  datatype Instr =
    | Alloca(dst: nat)
    | Load(dst: nat, ptr: Operand)
    | Store(val: Operand, ptr: Operand)
    | Binary(dst: nat, kind: BinKind, lhs: Operand, rhs: Operand)
    | ICmp(dst: nat, pred: Predicate, lhs: Operand, rhs: Operand)
    | Trunc(dst: nat, src: Operand)
    | Br(target: BlockId)
    | CondBr(cond: Operand, ifTrue: BlockId, ifFalse: BlockId)
    | Ret(val: Operand)
    | RetVoid

  type Code = seq<seq<Instr>>

  function TypeOfOperand(o: Operand): Type {
    match o
    case Const(ty, _) => ty
    case Arg(_) => I32
    case Temp(_, ty) => ty
  }

  predicate IsTerminator(i: Instr) {
    i.Br? || i.CondBr? || i.Ret? || i.RetVoid?
  }

  // ----- the machine -----

  datatype Datum = Bits(ty: Type, bits: nat) | Address(at: nat)

  // Every alloca executed gets a cell of its own at the end of the memory; a cell is empty until a store.
  datatype Frame = Frame(temps: map<nat, Datum>, memory: seq<Option<nat>>, args: seq<nat>)

  datatype Config =
    | Running(block: BlockId, pc: nat, frame: Frame)
    | Done(result: Option<nat>, last: Frame)
    | Stuck

  function OperandValue(o: Operand, fr: Frame): Option<Datum> {
    match o
    case Const(ty, bits) => Some(Bits(ty, bits))
    case Arg(i) => if i < |fr.args| then Some(Bits(I32, fr.args[i])) else None
    case Temp(id, _) => if id in fr.temps then Some(fr.temps[id]) else None
  }

  /** None where LLVM leaves a division undefined or gives no value to a shift. */
  function EvalBinary(kind: BinKind, ty: Type, a: nat, b: nat): Option<nat> {
    var width := if ty == I1 then 1 else 32;
    var modulus := if ty == I1 then 2 else MODULUS;
    match kind
    case BAdd => Some((a + b) % modulus)
    case BSub => Some((a - b) % modulus)
    case BMul => Some((a * b) % modulus)
    case BAnd => Some(Bitwise(AndGate, a, b, width))
    case BOr => Some(Bitwise(OrGate, a, b, width))
    case BXor => Some(Bitwise(XorGate, a, b, width))
    case BSDiv =>
      var x, y := SignedAt(ty, a), SignedAt(ty, b);
      if y == 0 || (x == -(modulus / 2) && y == -1) then None else Some(Quotient(x, y) % modulus)
    case BShl => if b < width then Some(a * Pow2(b) % modulus) else None
    case BAShr =>
      // The sign bit is copied into the b leftmost bits.
      if b < width then Some((a / Pow2(b) - if a < modulus / 2 then 0 else Pow2(width - b)) % modulus) else None
  }

  /** The two's complement reading of a pattern of the given type. */
  function SignedAt(ty: Type, bits: nat): int {
    if ty == I1 then (if bits == 1 then -1 else 0) else Signed(bits)
  }

  predicate EvalPredicate(p: Predicate, ty: Type, a: nat, b: nat) {
    match p
    case ULT => a < b
    case SLE => SignedAt(ty, a) <= SignedAt(ty, b)
    case SGE => SignedAt(ty, a) >= SignedAt(ty, b)
    case SGT => SignedAt(ty, a) > SignedAt(ty, b)
    case EQ => a == b
    case NE => a != b
  }

  function SetTemp(fr: Frame, id: nat, v: Datum): Frame {
    fr.(temps := fr.temps[id := v])
  }

  /** An instruction that is not a terminator turns a frame into a frame. */
  function Effect(i: Instr, fr: Frame): Option<Frame>
    requires !IsTerminator(i)
  {
    match i
    case Alloca(dst) =>
      Some(SetTemp(fr, dst, Address(|fr.memory|)).(memory := fr.memory + [None]))
    case Load(dst, ptr) =>
      (match OperandValue(ptr, fr)
       case Some(Address(a)) =>
         if a < |fr.memory| && fr.memory[a].Some? then Some(SetTemp(fr, dst, Bits(I32, fr.memory[a].value))) else None
       case _ => None)
    case Store(val, ptr) =>
      (match (OperandValue(val, fr), OperandValue(ptr, fr))
       case (Some(Bits(I32, v)), Some(Address(a))) =>
         if a < |fr.memory| then Some(fr.(memory := fr.memory[a := Some(v)])) else None
       case _ => None)
    case Binary(dst, kind, lhs, rhs) =>
      (match (OperandValue(lhs, fr), OperandValue(rhs, fr))
       case (Some(Bits(t1, a)), Some(Bits(t2, b))) =>
         (match (if t1 == t2 then EvalBinary(kind, t1, a, b) else None)
          case Some(r) => Some(SetTemp(fr, dst, Bits(t1, r)))
          case None => None)
       case _ => None)
    case ICmp(dst, p, lhs, rhs) =>
      (match (OperandValue(lhs, fr), OperandValue(rhs, fr))
       case (Some(Bits(t1, a)), Some(Bits(t2, b))) =>
         if t1 == t2 then Some(SetTemp(fr, dst, Bits(I1, if EvalPredicate(p, t1, a, b) then 1 else 0))) else None
       case _ => None)
    case Trunc(dst, src) =>
      (match OperandValue(src, fr)
       case Some(Bits(I32, a)) => Some(SetTemp(fr, dst, Bits(I1, a % 2)))
       case _ => None)
  }

  function Jump(i: Instr, fr: Frame): Config
    requires IsTerminator(i)
  {
    match i
    case Br(b) => Running(b, 0, fr)
    case CondBr(c, t, e) =>
      (match OperandValue(c, fr)
       case Some(Bits(I1, v)) => Running(if v == 1 then t else e, 0, fr)
       case _ => Stuck)
    case Ret(o) =>
      (match OperandValue(o, fr)
       case Some(Bits(I32, v)) => Done(Some(v), fr)
       case _ => Stuck)
    case RetVoid => Done(None, fr)
  }

  /** Running past the end of a block, or into a block that is not there, is stuck. */
  function Step(code: Code, c: Config): Config {
    match c
    case Running(b, pc, fr) =>
      if b < |code| && pc < |code[b]| then
        var i := code[b][pc];
        if IsTerminator(i) then Jump(i, fr)
        else match Effect(i, fr) case Some(fr1) => Running(b, pc + 1, fr1) case None => Stuck
      else Stuck
    case _ => c
  }

  function Run(code: Code, c: Config, n: nat): Config
    decreases n
  {
    if n == 0 then c else Run(code, Step(code, c), n - 1)
  }

  lemma {:induction false} RunAdds(code: Code, c: Config, m: nat, n: nat)
    ensures Run(code, c, m + n) == Run(code, Run(code, c, m), n)
    decreases m
  {
    if m > 0 {
      RunAdds(code, Step(code, c), m - 1, n);
    }
  }

  lemma RunOneMore(code: Code, c: Config, n: nat)
    ensures Run(code, c, n + 1) == Step(code, Run(code, c, n))
  {
    RunAdds(code, c, n, 1);
    assert Run(code, Step(code, Run(code, c, n)), 0) == Step(code, Run(code, c, n));
  }

  lemma {:induction false} EndedStays(code: Code, c: Config, n: nat)
    requires !c.Running?
    ensures Run(code, c, n) == c
    decreases n
  {
    if n > 0 {
      EndedStays(code, c, n - 1);
    }
  }

  /** A program has one end: whatever two runs stop at, it is the same. */
  lemma {:induction false} EndIsUnique(code: Code, c: Config, m: nat, n: nat)
    requires !Run(code, c, m).Running? && !Run(code, c, n).Running?
    ensures Run(code, c, m) == Run(code, c, n)
    decreases m > n
  {
    if m <= n {
      RunAdds(code, c, m, n - m);
      EndedStays(code, Run(code, c, m), n - m);
    } else {
      EndIsUnique(code, c, n, m);
    }
  }
}
