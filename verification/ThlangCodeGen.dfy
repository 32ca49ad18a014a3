/**
  The code generator of src/codegen.cpp as functions on the state of its builder.
  Every function mirrors one `codegen` method, branch by branch, including the
  branches in which the source gives up and returns a null pointer (None here).
  The class in ThlangCodeGenContext is the imperative form proved against these.
*/
module ThlangCodeGen {
  import opened Wrappers
  import opened TwosComplement
  import opened ThlangAst
  import opened ThlangIr

  type Scope = map<string, Operand>

  /**
    blocks: every basic block created, by number; layout: the blocks inserted in
    the function, in order; cur: the insertion point; next: the number of the next
    temporary; scopes: the stack of symbol tables, innermost last.
  */
  datatype Ctx = Ctx(blocks: Code, layout: seq<BlockId>, cur: BlockId, next: nat, scopes: seq<Scope>)

  predicate Usable(c: Ctx) {
    c.cur < |c.blocks| && |c.scopes| > 0
  }

  type Builder = c: Ctx | Usable(c) witness Ctx([[]], [0], 0, 0, [map[]])

  // ----- builder and scope operations -----

  function Emit(c: Builder, i: Instr): Builder {
    c.(blocks := c.blocks[c.cur := c.blocks[c.cur] + [i]])
  }

  /** Emits an instruction whose result is the next temporary. */
  function EmitTemp(c: Builder, i: Instr): Builder {
    Emit(c, i).(next := c.next + 1)
  }

  function CreateBlock(c: Builder, inserted: bool): Builder {
    c.(blocks := c.blocks + [[]], layout := if inserted then c.layout + [|c.blocks|] else c.layout)
  }

  function InsertInto(c: Builder, b: BlockId): Builder {
    c.(layout := c.layout + [b])
  }

  function SetInsertPoint(c: Builder, b: BlockId): Builder
    requires b < |c.blocks|
  {
    c.(cur := b)
  }

  predicate HasTerminator(block: seq<Instr>) {
    block != [] && IsTerminator(block[|block| - 1])
  }

  function BranchIfOpen(c: Builder, b: BlockId): (r: Builder)
    ensures |r.blocks| == |c.blocks| && r.scopes == c.scopes && r.cur == c.cur
  {
    if HasTerminator(c.blocks[c.cur]) then c else Emit(c, Br(b))
  }

  /** The innermost binding of a name. */
  function GetValue(scopes: seq<Scope>, x: string): Option<Operand> {
    if scopes == [] then None
    else
      var top := scopes[|scopes| - 1];
      if x in top then Some(top[x]) else GetValue(scopes[..|scopes| - 1], x)
  }

  function SetValue(c: Builder, x: string, o: Operand): Builder {
    var k := |c.scopes| - 1;
    c.(scopes := c.scopes[k := c.scopes[k][x := o]])
  }

  function PushBlock(c: Builder, b: BlockId): Builder
    requires b < |c.blocks|
  {
    c.(scopes := c.scopes + [map[]], cur := b)
  }

  function PopBlock(c: Builder): Builder
    requires |c.scopes| > 1
  {
    c.(scopes := c.scopes[..|c.scopes| - 1])
  }

  // ----- expressions -----

  datatype Selected = NoCase | Arith(kind: BinKind) | Compare(pred: Predicate)

  /** The if chain of BinOpAst::codegen; note the unsigned comparison for `<`. */
  function Select(op: BinaryOp): Selected {
    match op
    case AddOp => Arith(BAdd)
    case SubOp => Arith(BSub)
    case MulOp => Arith(BMul)
    case DivOp => Arith(BSDiv)
    case AndOp => Arith(BAnd)
    case OrOp => Arith(BOr)
    case XorOp => Arith(BXor)
    case ShlOp => Arith(BShl)
    case ShrOp => Arith(BAShr)
    case LtOp => Compare(ULT)
    case LeOp => Compare(SLE)
    case GeOp => Compare(SGE)
    case GtOp => Compare(SGT)
    case EqOp => Compare(EQ)
    case NeOp => Compare(NE)
    case OtherOp(_) => NoCase
  }

  function EmitBinOp(c: Builder, op: BinaryOp, l: Operand, r: Operand): (Builder, Option<Operand>) {
    match Select(op)
    case Arith(kind) =>
      (EmitTemp(c, Binary(c.next, kind, l, r)), Some(Temp(c.next, TypeOfOperand(l))))
    case Compare(p) =>
      (EmitTemp(c, ICmp(c.next, p, l, r)), Some(Temp(c.next, I1)))
    case NoCase => (c, None)
  }

  function GenExpr(e: Expr, c: Builder): (r: (Builder, Option<Operand>))
    ensures r.0.scopes == c.scopes && r.0.cur == c.cur && r.0.layout == c.layout
    ensures r.0.next >= c.next && |r.0.blocks| == |c.blocks| && c.blocks[c.cur] <= r.0.blocks[c.cur]
    ensures r.0.blocks == c.blocks[c.cur := r.0.blocks[c.cur]]
  {
    match e
    case IntLit(k) => (c, Some(Const(I32, ToBits(k))))
    case Name(x) =>
      (match GetValue(c.scopes, x)
       case None => (c, None)
       case Some(p) => (EmitTemp(c, Load(c.next, p)), Some(Temp(c.next, I32))))
    case UnOp(op, e1) =>
      var (c1, o) := GenExpr(e1, c);
      if o.None? then (c1, None)
      else (
        match op
        case Neg => (EmitTemp(c1, Binary(c1.next, BSub, Const(I32, 0), o.value)), Some(Temp(c1.next, I32)))
        case Pos => (c1, o)
        case Not => (c1, None))
    case BinOp(op, l, r) =>
      var (c1, o1) := GenExpr(l, c);
      var (c2, o2) := GenExpr(r, c1);
      if o1.None? || o2.None? then (c2, None) else EmitBinOp(c2, op, o1.value, o2.value)
    case Assign(x, e1) =>
      (match GetValue(c.scopes, x)
       case None => (c, None)
       case Some(p) =>
         var (c1, o) := GenExpr(e1, c);
         if o.None? then (c1, None) else (Emit(c1, Store(o.value, p)), Some(p)))
  }

  // ----- statements -----

  /** The condition of an if is compared with zero unless it is one bit wide already. */
  function EmitIfCond(c: Builder, o: Operand): (Builder, Operand) {
    if TypeOfOperand(o) == I1 then (c, o)
    else (EmitTemp(c, ICmp(c.next, NE, o, Const(TypeOfOperand(o), 0))), Temp(c.next, I1))
  }

  /** The condition of a loop is cast to one bit and then compared with zero. */
  function EmitLoopCond(c: Builder, o: Operand): (Builder, Operand) {
    var (c1, o1) := if TypeOfOperand(o) == I1 then (c, o) else (EmitTemp(c, Trunc(c.next, o)), Temp(c.next, I1));
    (EmitTemp(c1, ICmp(c1.next, NE, o1, Const(I1, 0))), Temp(c1.next, I1))
  }

  /** From the condition of an if to the start of its then branch. */
  function IfHead(c: Builder, cond: Operand): (r: Builder)
    ensures r.scopes == c.scopes && |r.blocks| == |c.blocks| + 3 && r.cur == |c.blocks|
    ensures r.layout == c.layout + [|c.blocks|]
  {
    var (c1, b) := EmitIfCond(c, cond);
    var thenBB := |c1.blocks|;
    var c2 := CreateBlock(CreateBlock(CreateBlock(c1, true), false), false);
    SetInsertPoint(Emit(c2, CondBr(b, thenBB, thenBB + 1)), thenBB)
  }

  function GenStmt(s: Stmt, c: Builder): (r: (Builder, Option<Operand>))
    ensures |r.0.blocks| >= |c.blocks| && |r.0.scopes| == |c.scopes|
    decreases s, 1
  {
    match s
    case ExprStmt(e) => GenExpr(e, c)
    case VarStmt(x, init) => GenVar(x, init, c)
    case IfStmt(_, _, _) => GenIf(s, c)
    case ForStmt(_, _, _, _) => GenFor(s, c)
    case WhileStmt(_, _) => GenWhile(s, c)
    case ReturnStmt(v) =>
      if v.None? then (Emit(c, RetVoid), None)
      else
        var (c1, o) := GenExpr(v.value, c);
        if o.None? then (Emit(c1, RetVoid), None) else (Emit(c1, Ret(o.value)), o)
  }

  /** The name is bound before the initialiser is generated. */
  function GenVar(x: string, init: Option<Expr>, c: Builder): (r: (Builder, Option<Operand>))
    ensures |r.0.blocks| == |c.blocks| && |r.0.scopes| == |c.scopes|
  {
    var slot := Temp(c.next, Pointer);
    var c1 := SetValue(EmitTemp(c, Alloca(c.next)), x, slot);
    if init.None? then (c1, Some(slot))
    else
      var (c2, o) := GenExpr(init.value, c1);
      if o.None? then (c2, None) else (Emit(c2, Store(o.value, slot)), Some(slot))
  }

  function GenIf(s: Stmt, c: Builder): (r: (Builder, Option<Operand>))
    requires s.IfStmt?
    ensures |r.0.blocks| >= |c.blocks| && |r.0.scopes| == |c.scopes|
    decreases s, 0
  {
    var (c1, o) := GenExpr(s.cond, c);
    if o.None? then (c1, None)
    else
      var thenBB := |c.blocks|;
      var (c2, v) := GenBlock(s.thn, IfHead(c1, o.value));
      if v.None? then (c2, None)
      else
        var c3 := IfMiddle(c2, thenBB);
        match s.els
        case NoElse => (IfTail(c3, thenBB + 2), None)
        case Else(ss) =>
          var (c4, w) := GenBlock(ss, c3);
          if w.None? then (c4, None) else (IfTail(c4, thenBB + 2), None)
  }

  function GenFor(s: Stmt, c: Builder): (r: (Builder, Option<Operand>))
    requires s.ForStmt?
    ensures |r.0.blocks| >= |c.blocks| && |r.0.scopes| == |c.scopes|
    decreases s, 0
  {
    var first := |c.blocks|;
    var c1 := ForInit(s.start, c);
    var (c2, o) := GenExpr(s.cond, c1);
    if o.None? then (c2, None)
    else
      var c3 := GenBlock(s.body, LoopEntry(c2, o.value, first + 2, first + 4)).0;
      (ForEnd(s.increment, c3, first), None)
  }

  function GenWhile(s: Stmt, c: Builder): (r: (Builder, Option<Operand>))
    requires s.WhileStmt?
    ensures |r.0.blocks| >= |c.blocks| && |r.0.scopes| == |c.scopes|
    decreases s, 0
  {
    var block := |c.blocks|;
    var (c1, o) := GenExpr(s.cond, WhileHead(c));
    if o.None? then (c1, None)
    else
      var c2 := GenBlock(s.body, LoopEntry(c1, o.value, block, block + 1)).0;
      // The condition is generated a second time, in the scope outside of the body.
      var (c3, o2) := GenExpr(s.cond, PopBlock(c2));
      if o2.None? then (c3, None) else (WhileEnd(c3, o2.value, block), None)
  }

  /** From the end of the then branch to the start of the else branch. */
  function IfMiddle(c: Builder, thenBB: BlockId): (r: Builder)
    requires thenBB + 2 < |c.blocks|
    ensures r.scopes == c.scopes && |r.blocks| == |c.blocks| && r.cur == thenBB + 1
  {
    SetInsertPoint(InsertInto(BranchIfOpen(c, thenBB + 2), thenBB + 1), thenBB + 1)
  }

  function IfTail(c: Builder, mergeBB: BlockId): Builder
    requires mergeBB < |c.blocks|
  {
    SetInsertPoint(InsertInto(BranchIfOpen(c, mergeBB), mergeBB), mergeBB)
  }

  function ForBlocks(c: Builder): (r: Builder)
    ensures r.scopes == c.scopes && |r.blocks| == |c.blocks| + 5 && r.cur == c.cur
    ensures r.layout
            == c.layout + [|c.blocks|] + [|c.blocks| + 1] + [|c.blocks| + 2] + [|c.blocks| + 3] + [|c.blocks| + 4]
  {
    CreateBlock(CreateBlock(CreateBlock(CreateBlock(CreateBlock(c, true), true), true), true), true)
  }

  /** The five blocks of a for, the jump into the first, and the first part of the statement. */
  function ForInit(start: Option<Expr>, c: Builder): (r: Builder)
    ensures r.scopes == c.scopes && |r.blocks| == |c.blocks| + 5 && r.cur == |c.blocks| + 1
  {
    var n := |c.blocks|;
    var c2 := SetInsertPoint(Emit(ForBlocks(c), Br(n)), n);
    var c3 := if start.None? then c2 else GenExpr(start.value, c2).0;
    SetInsertPoint(Emit(c3, Br(n + 1)), n + 1)
  }

  /** The conditional branch of a loop. */
  function EmitLoopBranch(c: Builder, cond: Operand, body: BlockId, after: BlockId): (r: Builder)
    ensures r.scopes == c.scopes && |r.blocks| == |c.blocks|
  {
    var (c1, b) := EmitLoopCond(c, cond);
    Emit(c1, CondBr(b, body, after))
  }

  function LoopEntry(c: Builder, cond: Operand, body: BlockId, after: BlockId): (r: Builder)
    requires body < |c.blocks|
    ensures r.scopes == c.scopes + [map[]] && |r.blocks| == |c.blocks| && r.cur == body
  {
    PushBlock(EmitLoopBranch(c, cond, body, after), body)
  }

  /**
    From the end of the body of a for to its increment. Whether the body still needs
    its jump is looked up in the first block of the body, not in the current one.
  */
  function ForStep(c: Builder, first: BlockId): (r: Builder)
    requires first + 4 < |c.blocks| && |c.scopes| > 1
    ensures r.scopes == c.scopes[..|c.scopes| - 1] && |r.blocks| == |c.blocks| && r.cur == first + 3
  {
    var c1 := if HasTerminator(c.blocks[first + 2]) then c else Emit(c, Br(first + 3));
    SetInsertPoint(PopBlock(c1), first + 3)
  }

  function ForEnd(increment: Option<Expr>, c: Builder, first: BlockId): (r: Builder)
    requires first + 4 < |c.blocks| && |c.scopes| > 1
    ensures r.scopes == c.scopes[..|c.scopes| - 1] && |r.blocks| == |c.blocks|
  {
    var c1 := ForStep(c, first);
    var c2 := if increment.None? then c1 else GenExpr(increment.value, c1).0;
    LoopExit(Emit(c2, Br(first + 1)), first + 4)
  }

  /** The two blocks of a while. */
  function WhileHead(c: Builder): (r: Builder)
    ensures |r.blocks| == |c.blocks| + 2 && r.scopes == c.scopes && r.cur == c.cur
  {
    CreateBlock(CreateBlock(c, true), false)
  }

  function WhileEnd(c: Builder, cond: Operand, block: BlockId): (r: Builder)
    requires block + 1 < |c.blocks|
    ensures r.scopes == c.scopes && |r.blocks| == |c.blocks| && r.cur == block + 1
  {
    LoopExit(InsertInto(EmitLoopBranch(c, cond, block, block + 1), block + 1), block + 1)
  }

  function LoopExit(c: Builder, after: BlockId): (r: Builder)
    requires after < |c.blocks|
    ensures r.scopes == c.scopes && |r.blocks| == |c.blocks| && r.cur == after
  {
    var c1 := SetInsertPoint(c, after);
    if HasTerminator(c1.blocks[after]) then c1 else Emit(c1, RetVoid)
  }

  /** The value of the last statement; None also for an empty block, whose value is never set. */
  function GenBlock(ss: seq<Stmt>, c: Builder): (r: (Builder, Option<Operand>))
    ensures |r.0.blocks| >= |c.blocks| && |r.0.scopes| == |c.scopes|
    decreases ss, 2
  {
    if ss == [] then (c, None)
    else if |ss| == 1 then GenStmt(ss[0], c)
    else GenBlock(ss[1..], GenStmt(ss[0], c).0)
  }

  // ----- functions -----

  /** Each parameter gets a slot, filled from the argument. */
  function GenParams(params: seq<string>, i: nat, c: Builder): Builder
    requires i <= |params|
    decreases |params| - i
  {
    if i == |params| then c
    else
      var c1 := EmitTemp(c, Alloca(c.next));
      var c2 := Emit(c1, Store(Arg(i), Temp(c.next, Pointer)));
      GenParams(params, i + 1, SetValue(c2, params[i], Temp(c.next, Pointer)))
  }

  /** A new function starts with its entry block; the scopes of earlier functions are still there. */
  function EntryCtx(next: nat, scopes: seq<Scope>): Builder {
    Ctx([[]], [0], 0, next, scopes + [map[]])
  }

  function GenFunction(f: Function, next: nat, scopes: seq<Scope>): Builder {
    GenBlock(f.body, GenParams(f.params, 0, EntryCtx(next, scopes))).0
  }
}
