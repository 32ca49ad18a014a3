/**
  Generated expression code computes what the expression means: the relation
  between a source store and a machine frame, and the simulation of expressions.
*/
module ThlangExprCorrect {
  import opened TruncatedDivision
  import opened Wrappers
  import opened TwosComplement
  import opened ThlangAst
  import opened ThlangSemantics
  import opened ThlangIr
  import opened ThlangCodeGen

  // ----- how values and stores are represented -----

  function IrType(t: Ty): Type {
    if t == IntTy then I32 else I1
  }

  function Encode(v: Value): Datum {
    match v
    case Num(n) => Bits(I32, ToBits(n))
    case Truth(b) => Bits(I1, if b then 1 else 0)
  }

  /** The memory cell of a name, if the frame has one. */
  function CellOf(scopes: seq<Scope>, fr: Frame, x: string): Option<nat> {
    match GetValue(scopes, x)
    case Some(Temp(id, Pointer)) =>
      if id in fr.temps && fr.temps[id].Address? && fr.temps[id].at < |fr.memory| then Some(fr.temps[id].at) else None
    case _ => None
  }

  predicate SlotBelow(scopes: seq<Scope>, next: nat, x: string) {
    match GetValue(scopes, x)
    case Some(Temp(id, _)) => id < next
    case _ => false
  }

  /** The name has a cell of its own and the cell holds the variable's value. */
  predicate Held(scopes: seq<Scope>, next: nat, fr: Frame, s: Store, x: string)
    requires x in s
  {
    && SlotBelow(scopes, next, x)
    && CellOf(scopes, fr, x).Some?
    && fr.memory[CellOf(scopes, fr, x).value] == Some(ToBits(s[x]))
  }

  /** A frame represents a store: every variable is held, no two share a cell. */
  ghost predicate Represents(scopes: seq<Scope>, next: nat, fr: Frame, s: Store) {
    && (forall x :: x in s ==> Held(scopes, next, fr, s, x))
    && (forall x, y :: x in s && y in s && x != y ==> CellOf(scopes, fr, x) != CellOf(scopes, fr, y))
  }

  /** Code that was in blocks is still at its place in code. */
  ghost predicate Extends(code: Code, blocks: Code) {
    |blocks| <= |code| && forall b :: 0 <= b < |blocks| ==> blocks[b] <= code[b]
  }

  lemma EmitExtends(code: Code, c: Builder, i: Instr)
    requires Extends(code, Emit(c, i).blocks)
    ensures Extends(code, c.blocks)
  {
    forall b | 0 <= b < |c.blocks|
      ensures c.blocks[b] <= code[b]
    {
      assert c.blocks[b] <= Emit(c, i).blocks[b] <= code[b];
    }
  }

  lemma ExprExtends(code: Code, e: Expr, c: Builder)
    requires Extends(code, GenExpr(e, c).0.blocks)
    ensures Extends(code, c.blocks)
  {
    forall b | 0 <= b < |c.blocks|
      ensures c.blocks[b] <= code[b]
    {
      assert c.blocks[b] <= GenExpr(e, c).0.blocks[b] <= code[b];
    }
  }

  /** The machine at the insertion point. */
  function Here(c: Builder, fr: Frame): Config {
    Running(c.cur, |c.blocks[c.cur]|, fr)
  }

  /** What was computed before temporary number next is still there. */
  ghost predicate Keeps(fr: Frame, fr': Frame, next: nat) {
    && (forall id :: id in fr.temps && id < next ==> id in fr'.temps && fr'.temps[id] == fr.temps[id])
    && fr'.args == fr.args
    && |fr.memory| <= |fr'.memory|
  }

  lemma KeepsTransitive(fr1: Frame, fr2: Frame, fr3: Frame, next: nat, next': nat)
    requires Keeps(fr1, fr2, next) && Keeps(fr2, fr3, next') && next <= next'
    ensures Keeps(fr1, fr3, next)
  {
  }

  lemma SetTempKeeps(fr: Frame, next: nat, v: Datum)
    ensures Keeps(fr, SetTemp(fr, next, v), next)
  {
  }

  lemma RepresentsKept(scopes: seq<Scope>, next: nat, fr: Frame, s: Store, fr': Frame, next': nat)
    requires Represents(scopes, next, fr, s) && Keeps(fr, fr', next) && fr'.memory == fr.memory && next <= next'
    ensures Represents(scopes, next', fr', s)
  {
    forall x | x in s
      ensures CellOf(scopes, fr', x) == CellOf(scopes, fr, x) && Held(scopes, next', fr', s, x)
    {
      assert Held(scopes, next, fr, s, x);
    }
  }

  /** Running an instruction that was just appended. */
  lemma StepAppended(code: Code, c: Builder, i: Instr, fr: Frame)
    requires Extends(code, Emit(c, i).blocks)
    ensures c.cur < |code| && |c.blocks[c.cur]| < |code[c.cur]| && code[c.cur][|c.blocks[c.cur]|] == i
    ensures !IsTerminator(i) && Effect(i, fr).Some? ==>
              Step(code, Here(c, fr)) == Here(Emit(c, i), Effect(i, fr).value)
    ensures IsTerminator(i) ==> Step(code, Here(c, fr)) == Jump(i, fr)
  {
    var blocks := Emit(c, i).blocks;
    assert blocks[c.cur] <= code[c.cur];
    assert blocks[c.cur][|c.blocks[c.cur]|] == i;
  }

  // ----- operators -----

  lemma GateOnBits(g: Gate, a: Int32, b: Int32)
    ensures Bitwise(g, ToBits(a), ToBits(b), 32) == ToBits(BitGate(g, a, b))
  {
    hide Bitwise, Pow2, Wrap;
    Pow2Of32();
    WrapKeepsBits(Bitwise(g, ToBits(a), ToBits(b), 32));
  }

  /** The instruction chosen for op takes the patterns of a and b to that of their result. */
  ghost predicate Computes(op: BinaryOp, a: Value, b: Value)
    requires Applicable(op, a, b)
  {
    match Select(op)
    case Arith(kind) =>
      && Encode(Apply(op, a, b)).ty == Encode(a).ty == Encode(b).ty
      && EvalBinary(kind, Encode(a).ty, Encode(a).bits, Encode(b).bits) == Some(Encode(Apply(op, a, b)).bits)
    case Compare(p) =>
      && Encode(a).ty == Encode(b).ty
      && Apply(op, a, b) == Truth(EvalPredicate(p, Encode(a).ty, Encode(a).bits, Encode(b).bits))
    case NoCase => false
  }

  lemma SumsComputed(op: BinaryOp, a: Value, b: Value)
    requires Applicable(op, a, b) && (op == AddOp || op == SubOp || op == MulOp)
    ensures Computes(op, a, b)
  {
    hide Wrap, ToBits, Signed;
    match op
    case AddOp => AddBits(a.n, b.n);
    case SubOp => SubBits(a.n, b.n);
    case MulOp => MulBits(a.n, b.n);
  }

  lemma GatesComputed(op: BinaryOp, a: Value, b: Value)
    requires Applicable(op, a, b) && a.Num? && (op == AndOp || op == OrOp || op == XorOp)
    ensures Computes(op, a, b)
  {
    hide Bitwise, Pow2, BitGate, Wrap, ToBits, Signed;
    GateOnBits(GateOf(op), a.n, b.n);
  }

  lemma OrdersComputed(op: BinaryOp, a: Value, b: Value)
    requires Applicable(op, a, b) && a.Num? && Select(op).Compare?
    ensures Computes(op, a, b)
  {
    hide Bitwise, Pow2, BitGate, Wrap, ToBits, Signed;
    SignedInvertsToBits(a.n);
    SignedInvertsToBits(b.n);
  }

  lemma QuotientsComputed(op: BinaryOp, a: Value, b: Value)
    requires Applicable(op, a, b) && (op == DivOp || op == ShlOp || op == ShrOp)
    ensures Computes(op, a, b)
  {
    hide Bitwise, Pow2, BitGate, Wrap, DividedBy, ShiftedRight, Quotient;
    match op
    case DivOp =>
      SignedInvertsToBits(a.n);
      SignedInvertsToBits(b.n);
      DivBits(a.n, b.n);
    case ShlOp => ShlBits(a.n, b.n);
    case ShrOp => ShrBits(a.n, b.n);
  }

  lemma NumbersComputed(op: BinaryOp, a: Value, b: Value)
    requires Applicable(op, a, b) && a.Num?
    ensures Computes(op, a, b)
  {
    hide Computes;
    match op
    case AddOp | SubOp | MulOp => SumsComputed(op, a, b);
    case AndOp | OrOp | XorOp => GatesComputed(op, a, b);
    case DivOp | ShlOp | ShrOp => QuotientsComputed(op, a, b);
    case _ => OrdersComputed(op, a, b);
  }

  lemma TruthsComputed(op: BinaryOp, a: Value, b: Value)
    requires Applicable(op, a, b) && !a.Num?
    ensures Computes(op, a, b)
  {
  }

  /** The instruction chosen for an operator computes that operator. */
  lemma OperatorCorrect(op: BinaryOp, a: Value, b: Value)
    requires Applicable(op, a, b)
    ensures Computes(op, a, b)
  {
    hide Computes;
    if a.Num? {
      NumbersComputed(op, a, b);
    } else {
      TruthsComputed(op, a, b);
    }
  }

  /** On numbers, the instruction chosen has a value exactly where the operator has a meaning. */
  lemma OperatorDefinedIff(op: BinaryOp, a: Int32, b: Int32)
    requires Select(op).Arith?
    ensures EvalBinary(Select(op).kind, I32, ToBits(a), ToBits(b)).Some? <==> Applicable(op, Num(a), Num(b))
  {
    hide Bitwise, Pow2, Quotient;
    SignedInvertsToBits(a);
    SignedInvertsToBits(b);
  }

  // ----- expressions -----

  predicate IsOperandOf(o: Operand, t: Ty, next: nat) {
    TypeOfOperand(o) == IrType(t) && (o.Const? || (o.Temp? && o.id < next))
  }

  lemma OperandKept(o: Operand, t: Ty, next: nat, fr: Frame, fr': Frame)
    requires IsOperandOf(o, t, next) && Keeps(fr, fr', next) && OperandValue(o, fr).Some?
    ensures OperandValue(o, fr') == OperandValue(o, fr)
  {
  }

  lemma EmitBinOpExtends(code: Code, c: Builder, op: BinaryOp, l: Operand, r: Operand)
    requires Extends(code, EmitBinOp(c, op, l, r).0.blocks)
    ensures Extends(code, c.blocks)
  {
    match Select(op)
    case Arith(kind) => EmitExtends(code, c, Binary(c.next, kind, l, r));
    case Compare(p) => EmitExtends(code, c, ICmp(c.next, p, l, r));
    case NoCase =>
  }

  lemma BinOpStep(code: Code, c: Builder, op: BinaryOp, l: Operand, r: Operand, a: Value, b: Value, fr: Frame)
    requires Applicable(op, a, b)
    requires OperandValue(l, fr) == Some(Encode(a)) && OperandValue(r, fr) == Some(Encode(b))
    requires TypeOfOperand(l) == Encode(a).ty
    requires EmitBinOp(c, op, l, r).1.Some? ==> Extends(code, EmitBinOp(c, op, l, r).0.blocks)
    ensures var (c', o) := EmitBinOp(c, op, l, r);
            && o == Some(Temp(c.next, Encode(Apply(op, a, b)).ty))
            && c'.next == c.next + 1
            && Step(code, Here(c, fr)) == Here(c', SetTemp(fr, c.next, Encode(Apply(op, a, b))))
  {
    hide Extends, Step, EvalBinary, EvalPredicate, Apply, Applicable, OperandValue;
    OperatorCorrect(op, a, b);
    match Select(op)
    case Arith(kind) => StepAppended(code, c, Binary(c.next, kind, l, r), fr);
    case Compare(p) => StepAppended(code, c, ICmp(c.next, p, l, r), fr);
  }

  lemma EncodedType(e: Expr, s: Store)
    requires TypeOf(e, s.Keys).Some?
    ensures Encode(Eval(e, s)).Bits? && Encode(Eval(e, s)).ty == IrType(TypeOf(e, s.Keys).value)
  {
  }

  /**
    The generated code of a typed expression, started in frame fr, reaches its end
    after n steps in frame fr': no memory cell changed, and the operand that the
    generator returned holds the value of the expression.
  */
  ghost predicate ExprRuns(code: Code, e: Expr, c: Builder, fr: Frame, s: Store, n: nat, fr': Frame)
    requires TypeOf(e, s.Keys).Some?
  {
    var (c', o) := GenExpr(e, c);
    && o.Some? && IsOperandOf(o.value, TypeOf(e, s.Keys).value, c'.next)
    && Run(code, Here(c, fr), n) == Here(c', fr')
    && Keeps(fr, fr', c.next) && fr'.memory == fr.memory
    && OperandValue(o.value, fr') == Some(Encode(Eval(e, s)))
  }

  /** The right operand is computed after the left one, which stays available. */
  lemma OperandsRun(code: Code, l: Expr, r: Expr, c: Builder, fr: Frame, s: Store, n1: nat, fr1: Frame, n2: nat,
                    fr2: Frame)
    requires TypeOf(l, s.Keys).Some? && TypeOf(r, s.Keys).Some?
    requires ExprRuns(code, l, c, fr, s, n1, fr1)
    requires ExprRuns(code, r, GenExpr(l, c).0, fr1, s, n2, fr2)
    ensures Run(code, Here(c, fr), n1 + n2) == Here(GenExpr(r, GenExpr(l, c).0).0, fr2)
    ensures Keeps(fr, fr2, c.next) && fr2.memory == fr.memory
    ensures OperandValue(GenExpr(l, c).1.value, fr2) == Some(Encode(Eval(l, s)))
  {
    var (c1, o1) := GenExpr(l, c);
    RunAdds(code, Here(c, fr), n1, n2);
    OperandKept(o1.value, TypeOf(l, s.Keys).value, c1.next, fr1, fr2);
  }

  lemma BinOpRuns(code: Code, op: BinaryOp, l: Expr, r: Expr, c: Builder, fr: Frame, s: Store, n: nat, fr2: Frame)
    requires TypeOf(BinOp(op, l, r), s.Keys).Some?
    requires Extends(code, GenExpr(BinOp(op, l, r), c).0.blocks)
    requires var (c1, o1) := GenExpr(l, c);
             var (c2, o2) := GenExpr(r, c1);
             && o1.Some? && o2.Some?
             && TypeOfOperand(o1.value) == IrType(TypeOf(l, s.Keys).value)
             && Run(code, Here(c, fr), n) == Here(c2, fr2)
             && Keeps(fr, fr2, c.next) && fr2.memory == fr.memory
             && OperandValue(o1.value, fr2) == Some(Encode(Eval(l, s)))
             && OperandValue(o2.value, fr2) == Some(Encode(Eval(r, s)))
    ensures var c2 := GenExpr(r, GenExpr(l, c).0).0;
            ExprRuns(code, BinOp(op, l, r), c, fr, s, n + 1, SetTemp(fr2, c2.next, Encode(Eval(BinOp(op, l, r), s))))
  {
    hide Extends, Step, Run, Represents, Applicable, Apply, Keeps, OperandValue, Eval, EmitBinOp, Encode, TypeOf;
    hide GenExpr;
    var (c1, o1) := GenExpr(l, c);
    var (c2, o2) := GenExpr(r, c1);
    var v := Encode(Eval(BinOp(op, l, r), s));
    BinOpUnfolds(op, l, r, c, s);
    EncodedType(l, s);
    EncodedType(BinOp(op, l, r), s);
    BinOpStep(code, c2, op, o1.value, o2.value, Eval(l, s), Eval(r, s), fr2);
    RunOneMore(code, Here(c, fr), n);
    BinOpEnds(code, op, l, r, c, fr, s, n + 1, fr2);
  }

  lemma BinOpEnds(code: Code, op: BinaryOp, l: Expr, r: Expr, c: Builder, fr: Frame, s: Store, n: nat, fr2: Frame)
    requires TypeOf(BinOp(op, l, r), s.Keys).Some?
    requires var c2, v := GenExpr(r, GenExpr(l, c).0).0, Encode(Eval(BinOp(op, l, r), s));
             && v.Bits? && GenExpr(BinOp(op, l, r), c).1 == Some(Temp(c2.next, v.ty))
             && GenExpr(BinOp(op, l, r), c).0.next == c2.next + 1
             && Run(code, Here(c, fr), n) == Here(GenExpr(BinOp(op, l, r), c).0, SetTemp(fr2, c2.next, v))
    requires Keeps(fr, fr2, c.next) && fr2.memory == fr.memory
    ensures var c2, v := GenExpr(r, GenExpr(l, c).0).0, Encode(Eval(BinOp(op, l, r), s));
            ExprRuns(code, BinOp(op, l, r), c, fr, s, n, SetTemp(fr2, c2.next, v))
  {
    hide Run, Keeps, Encode, GenExpr, TypeOf, Eval;
    var c2, v := GenExpr(r, GenExpr(l, c).0).0, Encode(Eval(BinOp(op, l, r), s));
    EncodedType(BinOp(op, l, r), s);
    HeldByTemp(fr2, c2.next, v);
    SetTempKeeps(fr2, c2.next, v);
    KeepsTransitive(fr, fr2, SetTemp(fr2, c2.next, v), c.next, c2.next);
  }

  lemma BinOpUnfolds(op: BinaryOp, l: Expr, r: Expr, c: Builder, s: Store)
    requires TypeOf(BinOp(op, l, r), s.Keys).Some?
    requires GenExpr(l, c).1.Some? && GenExpr(r, GenExpr(l, c).0).1.Some?
    ensures TypeOf(l, s.Keys).Some? && TypeOf(r, s.Keys) == TypeOf(l, s.Keys)
    ensures Applicable(op, Eval(l, s), Eval(r, s)) && Eval(BinOp(op, l, r), s) == Apply(op, Eval(l, s), Eval(r, s))
    ensures GenExpr(BinOp(op, l, r), c)
         == EmitBinOp(GenExpr(r, GenExpr(l, c).0).0, op, GenExpr(l, c).1.value, GenExpr(r, GenExpr(l, c).0).1.value)
  {
    hide EmitBinOp;
  }

  /** Negation is a subtraction from zero. */
  lemma NegRuns(code: Code, e: Expr, c: Builder, fr: Frame, s: Store, n: nat, fr1: Frame) returns (n': nat, fr': Frame)
    requires TypeOf(UnOp(Neg, e), s.Keys).Some?
    requires Extends(code, GenExpr(UnOp(Neg, e), c).0.blocks)
    requires ExprRuns(code, e, c, fr, s, n, fr1)
    ensures ExprRuns(code, UnOp(Neg, e), c, fr, s, n', fr')
  {
    hide Extends, Step, Run, Keeps, ToBits, Wrap, OperandValue;
    var (c1, o) := GenExpr(e, c);
    var v := Bits(I32, ToBits(Wrap(-Eval(e, s).n)));
    NegStep(code, c1, o.value, Eval(e, s).n, fr1);
    RunOneMore(code, Here(c, fr), n);
    SetTempKeeps(fr1, c1.next, v);
    KeepsTransitive(fr, fr1, SetTemp(fr1, c1.next, v), c.next, c1.next);
    HeldByTemp(fr1, c1.next, v);
    n', fr' := n + 1, SetTemp(fr1, c1.next, v);
  }

  lemma HeldByTemp(fr: Frame, id: nat, v: Datum)
    ensures forall t: Type :: OperandValue(Temp(id, t), SetTemp(fr, id, v)) == Some(v)
  {
  }

  lemma NegStep(code: Code, c: Builder, o: Operand, n: int, fr: Frame)
    requires Extends(code, EmitTemp(c, Binary(c.next, BSub, Const(I32, 0), o)).blocks)
    requires OperandValue(o, fr) == Some(Bits(I32, ToBits(n)))
    ensures Step(code, Here(c, fr))
         == Here(EmitTemp(c, Binary(c.next, BSub, Const(I32, 0), o)), SetTemp(fr, c.next, Bits(I32, ToBits(Wrap(-n)))))
  {
    hide Extends, Step;
    SubBits(0, n);
    StepAppended(code, c, Binary(c.next, BSub, Const(I32, 0), o), fr);
  }

  /** What it means for a variable to be held, taken apart. */
  lemma HeldCell(scopes: seq<Scope>, next: nat, fr: Frame, s: Store, x: string) returns (id: nat, at: nat)
    requires x in s && Held(scopes, next, fr, s, x)
    ensures GetValue(scopes, x) == Some(Temp(id, Pointer)) && id < next
    ensures id in fr.temps && fr.temps[id] == Address(at)
    ensures at < |fr.memory| && fr.memory[at] == Some(ToBits(s[x])) && CellOf(scopes, fr, x) == Some(at)
  {
    id := GetValue(scopes, x).value.id;
    at := fr.temps[id].at;
  }

  lemma LoadStep(code: Code, c: Builder, id: nat, at: nat, bits: nat, fr: Frame)
    requires id in fr.temps && fr.temps[id] == Address(at) && at < |fr.memory| && fr.memory[at] == Some(bits)
    requires Extends(code, EmitTemp(c, Load(c.next, Temp(id, Pointer))).blocks)
    ensures Step(code, Here(c, fr))
            == Here(EmitTemp(c, Load(c.next, Temp(id, Pointer))), SetTemp(fr, c.next, Bits(I32, bits)))
  {
    StepAppended(code, c, Load(c.next, Temp(id, Pointer)), fr);
  }

  /** A variable is loaded from its cell. */
  lemma NameRuns(code: Code, x: string, c: Builder, fr: Frame, s: Store)
    requires x in s && Held(c.scopes, c.next, fr, s, x)
    requires Extends(code, GenExpr(Name(x), c).0.blocks)
    ensures ExprRuns(code, Name(x), c, fr, s, 1, SetTemp(fr, c.next, Bits(I32, ToBits(s[x]))))
  {
    hide Held, Extends, GetValue, Step;
    var id, at := HeldCell(c.scopes, c.next, fr, s, x);
    LoadStep(code, c, id, at, ToBits(s[x]), fr);
    RunOneMore(code, Here(c, fr), 0);
    SetTempKeeps(fr, c.next, Bits(I32, ToBits(s[x])));
  }

  /**
    From any frame representing the store, the code of an expression runs to its
    end and leaves the value of the expression in the operand returned.
  */
  lemma {:induction false} ExprCorrect(code: Code, e: Expr, c: Builder, fr: Frame, s: Store)
    returns (n: nat, fr': Frame)
    requires TypeOf(e, s.Keys).Some?
    requires Represents(c.scopes, c.next, fr, s)
    requires Extends(code, GenExpr(e, c).0.blocks)
    ensures ExprRuns(code, e, c, fr, s, n, fr')
    decreases e, 1
  {
    match e
    case IntLit(k) =>
      WrapKeepsBits(k);
      n, fr' := 0, fr;
    case Name(x) =>
      NameRuns(code, x, c, fr, s);
      n, fr' := 1, SetTemp(fr, c.next, Bits(I32, ToBits(s[x])));
    case UnOp(op, e1) =>
      if op == Neg {
        var (c1, o) := GenExpr(e1, c);
        if o.Some? {
          EmitExtends(code, c1, Binary(c1.next, BSub, Const(I32, 0), o.value));
        }
        n, fr' := ExprCorrect(code, e1, c, fr, s);
        n, fr' := NegRuns(code, e1, c, fr, s, n, fr');
      } else {
        n, fr' := ExprCorrect(code, e1, c, fr, s);
      }
    case BinOp(op, l, r) =>
      n, fr' := BinOpCorrect(code, op, l, r, c, fr, s);
  }

  lemma {:induction false} BinOpCorrect(code: Code, op: BinaryOp, l: Expr, r: Expr, c: Builder, fr: Frame, s: Store)
    returns (n: nat, fr': Frame)
    requires TypeOf(BinOp(op, l, r), s.Keys).Some?
    requires Represents(c.scopes, c.next, fr, s)
    requires Extends(code, GenExpr(BinOp(op, l, r), c).0.blocks)
    ensures ExprRuns(code, BinOp(op, l, r), c, fr, s, n, fr')
    decreases BinOp(op, l, r), 0
  {
    hide Extends, Represents, TypeOf, GenExpr, Eval, Encode;
    var c1 := GenExpr(l, c).0;
    BinOpParts(code, op, l, r, c, s.Keys);
    var n1, fr1 := ExprCorrect(code, l, c, fr, s);
    RepresentsKept(c.scopes, c.next, fr, s, fr1, c1.next);
    var n2, fr2 := ExprCorrect(code, r, c1, fr1, s);
    OperandsRun(code, l, r, c, fr, s, n1, fr1, n2, fr2);
    BinOpRuns(code, op, l, r, c, fr, s, n1 + n2, fr2);
    n, fr' := n1 + n2 + 1, SetTemp(fr2, GenExpr(r, c1).0.next, Encode(Eval(BinOp(op, l, r), s)));
  }

  /** The final code contains the code of both operands. */
  lemma BinOpParts(code: Code, op: BinaryOp, l: Expr, r: Expr, c: Builder, names: set<string>)
    requires TypeOf(BinOp(op, l, r), names).Some? && Extends(code, GenExpr(BinOp(op, l, r), c).0.blocks)
    ensures TypeOf(l, names).Some? && TypeOf(r, names).Some?
    ensures Extends(code, GenExpr(l, c).0.blocks) && Extends(code, GenExpr(r, GenExpr(l, c).0).0.blocks)
  {
    hide Extends, EmitBinOp;
    var (c1, o1) := GenExpr(l, c);
    var (c2, o2) := GenExpr(r, c1);
    if o1.Some? && o2.Some? {
      EmitBinOpExtends(code, c2, op, o1.value, o2.value);
    }
    ExprExtends(code, r, c1);
  }
}
