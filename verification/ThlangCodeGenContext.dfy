/**
  The code generator in the form of the source: an object whose methods append
  instructions at an insertion point, create and insert basic blocks, and push
  and pop symbol tables (include/thlang/codegen.h, src/codegen.cpp). Each method
  is proved to change the object exactly as its function in ThlangCodeGen says.
*/
module ThlangCodeGenContext {
  import opened Wrappers
  import opened TwosComplement
  import opened ThlangAst
  import opened ThlangIr
  import opened ThlangCodeGen

  class CodeGenContext {
    var blocks: Code
    var layout: seq<BlockId>
    var insertBlock: BlockId
    var nextTemp: nat
    var scopes: seq<Scope>

    ghost predicate Valid()
      reads this
    {
      insertBlock < |blocks| && |scopes| > 0
    }

    ghost function State(): (c: Builder)
      requires Valid()
      reads this
    {
      Ctx(blocks, layout, insertBlock, nextTemp, scopes)
    }

    /** The entry block of a function, in a scope on top of those left by earlier functions. */
    constructor (next: nat, outer: seq<Scope>)
      ensures Valid() && State() == EntryCtx(next, outer)
    {
      blocks, layout, insertBlock, nextTemp := [[]], [0], 0, next;
      scopes := outer + [map[]];
    }

    // ----- scopes -----

    method GetValueOf(x: string) returns (o: Option<Operand>)
      ensures o == GetValue(scopes, x)
    {
      var i := |scopes|;
      assert scopes[..i] == scopes;
      while i > 0
        invariant 0 <= i <= |scopes|
        invariant GetValue(scopes[..i], x) == GetValue(scopes, x)
      {
        assert scopes[..i][..i - 1] == scopes[..i - 1];
        if x in scopes[i - 1] {
          return Some(scopes[i - 1][x]);
        }
        i := i - 1;
      }
      return None;
    }

    method SetValueOf(x: string, o: Operand)
      requires Valid()
      modifies this`scopes
      ensures Valid() && State() == SetValue(old(State()), x, o)
    {
      var k := |scopes| - 1;
      scopes := scopes[k := scopes[k][x := o]];
    }

    method Push(b: BlockId)
      requires Valid() && b < |blocks|
      modifies this`scopes, this`insertBlock
      ensures Valid() && State() == PushBlock(old(State()), b)
    {
      scopes := scopes + [map[]];
      insertBlock := b;
    }

    method Pop()
      requires Valid() && |scopes| > 1
      modifies this`scopes
      ensures Valid() && State() == PopBlock(old(State()))
    {
      scopes := scopes[..|scopes| - 1];
    }

    // ----- builder -----

    method Append(i: Instr)
      requires Valid()
      modifies this`blocks
      ensures Valid() && State() == Emit(old(State()), i)
    {
      blocks := blocks[insertBlock := blocks[insertBlock] + [i]];
    }

    method Fresh() returns (n: nat)
      requires Valid()
      modifies this`nextTemp
      ensures Valid() && n == old(nextTemp) && State() == old(State()).(next := n + 1)
    {
      n := nextTemp;
      nextTemp := nextTemp + 1;
    }

    method NewBlock(inserted: bool) returns (b: BlockId)
      requires Valid()
      modifies this`blocks, this`layout
      ensures Valid() && b == old(|blocks|) && State() == CreateBlock(old(State()), inserted)
    {
      b := |blocks|;
      blocks := blocks + [[]];
      if inserted {
        layout := layout + [b];
      }
    }

    method Insert(b: BlockId)
      requires Valid()
      modifies this`layout
      ensures Valid() && State() == InsertInto(old(State()), b)
    {
      layout := layout + [b];
    }

    method MoveTo(b: BlockId)
      requires Valid() && b < |blocks|
      modifies this`insertBlock
      ensures Valid() && State() == SetInsertPoint(old(State()), b)
    {
      insertBlock := b;
    }

    method JumpIfOpen(b: BlockId)
      requires Valid()
      modifies this`blocks
      ensures Valid() && State() == BranchIfOpen(old(State()), b)
    {
      if !HasTerminator(blocks[insertBlock]) {
        Append(Br(b));
      }
    }

    // ----- expressions -----

    method Expression(e: Expr) returns (v: Option<Operand>)
      requires Valid()
      modifies this`blocks, this`nextTemp
      ensures Valid() && (State(), v) == GenExpr(e, old(State()))
      decreases e
    {
      hide EmitBinOp;
      match e {
        case IntLit(k) =>
          v := Some(Const(I32, ToBits(k)));
        case Name(x) =>
          var p := GetValueOf(x);
          if p.None? {
            return None;
          }
          var t := Fresh();
          Append(Load(t, p.value));
          v := Some(Temp(t, I32));
        case UnOp(op, e1) =>
          v := Expression(e1);
          if v.None? {
            return None;
          }
          match op {
            case Neg =>
              var t := Fresh();
              Append(Binary(t, BSub, Const(I32, 0), v.value));
              v := Some(Temp(t, I32));
            case Pos =>
            case Not =>
              v := None;
          }
        case BinOp(op, l, r) =>
          var lhs := Expression(l);
          var rhs := Expression(r);
          if lhs.None? || rhs.None? {
            return None;
          }
          v := Operation(op, lhs.value, rhs.value);
        case Assign(x, e1) =>
          var p := GetValueOf(x);
          if p.None? {
            return None;
          }
          v := Expression(e1);
          if v.None? {
            return None;
          }
          Append(Instr.Store(v.value, p.value));
          v := p;
      }
    }

    /** The if chain of BinOpAst::codegen, both operands being there. */
    method Operation(op: BinaryOp, lhs: Operand, rhs: Operand) returns (v: Option<Operand>)
      requires Valid()
      modifies this`blocks, this`nextTemp
      ensures Valid() && (State(), v) == EmitBinOp(old(State()), op, lhs, rhs)
    {
      match Select(op) {
        case Arith(kind) =>
          var t := Fresh();
          Append(Binary(t, kind, lhs, rhs));
          v := Some(Temp(t, TypeOfOperand(lhs)));
        case Compare(p) =>
          var t := Fresh();
          Append(ICmp(t, p, lhs, rhs));
          v := Some(Temp(t, I1));
        case NoCase =>
          v := None;
      }
    }

    method LoopBranch(cond: Operand, body: BlockId, after: BlockId)
      requires Valid()
      modifies this`blocks, this`nextTemp
      ensures Valid() && State() == EmitLoopBranch(old(State()), cond, body, after)
    {
      var bit := cond;
      if TypeOfOperand(cond) != I1 {
        var t := Fresh();
        Append(Trunc(t, cond));
        bit := Temp(t, I1);
      }
      var u := Fresh();
      Append(ICmp(u, NE, bit, Const(I1, 0)));
      Append(CondBr(Temp(u, I1), body, after));
    }

    method EnterLoop(cond: Operand, body: BlockId, after: BlockId)
      requires Valid() && body < |blocks|
      modifies this
      ensures Valid() && State() == LoopEntry(old(State()), cond, body, after)
    {
      LoopBranch(cond, body, after);
      Push(body);
    }

    method Exit(after: BlockId)
      requires Valid() && after < |blocks|
      modifies this`blocks, this`insertBlock
      ensures Valid() && State() == LoopExit(old(State()), after)
    {
      MoveTo(after);
      if !HasTerminator(blocks[after]) {
        Append(RetVoid);
      }
    }

    // ----- statements -----

    method Statement(s: Stmt) returns (v: Option<Operand>)
      requires Valid()
      modifies this
      ensures Valid() && (State(), v) == GenStmt(s, old(State()))
      decreases s, 1
    {
      match s {
        case ExprStmt(e) => v := Expression(e);
        case VarStmt(x, init) => v := Variable(x, init);
        case IfStmt(_, _, _) => v := If(s);
        case ForStmt(_, _, _, _) => v := For(s);
        case WhileStmt(_, _) => v := While(s);
        case ReturnStmt(e) =>
          if e.None? {
            Append(RetVoid);
            return None;
          }
          v := Expression(e.value);
          Append(if v.None? then RetVoid else Ret(v.value));
      }
    }

    method Variable(x: string, init: Option<Expr>) returns (v: Option<Operand>)
      requires Valid()
      modifies this
      ensures Valid() && (State(), v) == GenVar(x, init, old(State()))
    {
      var t := Fresh();
      Append(Alloca(t));
      SetValueOf(x, Temp(t, Pointer));
      if init.Some? {
        v := Expression(init.value);
        if v.None? {
          return None;
        }
        Append(Instr.Store(v.value, Temp(t, Pointer)));
      }
      v := Some(Temp(t, Pointer));
    }

    /** Creates the three blocks of an if and moves to the first. */
    method BeginIf(cond: Operand) returns (thenBB: BlockId, elseBB: BlockId, mergeBB: BlockId)
      requires Valid()
      modifies this
      ensures Valid() && State() == IfHead(old(State()), cond)
      ensures thenBB == old(|blocks|) && elseBB == thenBB + 1 && mergeBB == thenBB + 2
    {
      var bit := cond;
      if TypeOfOperand(bit) != I1 {
        var t := Fresh();
        Append(ICmp(t, NE, bit, Const(TypeOfOperand(bit), 0)));
        bit := Temp(t, I1);
      }
      thenBB := NewBlock(true);
      elseBB := NewBlock(false);
      mergeBB := NewBlock(false);
      Append(CondBr(bit, thenBB, elseBB));
      MoveTo(thenBB);
    }

    method If(s: Stmt) returns (v: Option<Operand>)
      requires Valid() && s.IfStmt?
      modifies this
      ensures Valid() && (State(), v) == GenIf(s, old(State()))
      decreases s, 0
    {
      hide IfHead, GenExpr, GenBlock, BranchIfOpen;
      var cond := Expression(s.cond);
      if cond.None? {
        return None;
      }
      var thenBB, elseBB, mergeBB := BeginIf(cond.value);
      v := Block(s.thn);
      if v.None? {
        return None;
      }
      FinishBranch(mergeBB, elseBB);
      if s.els.Else? {
        v := Block(s.els.stmts);
        if v.None? {
          return None;
        }
      }
      FinishBranch(mergeBB, mergeBB);
      v := None;
    }

    /** Ends a branch with a jump to the merge block, unless it ended already, and moves on. */
    method FinishBranch(mergeBB: BlockId, following: BlockId)
      requires Valid() && following < |blocks|
      modifies this
      ensures Valid()
      ensures State() == SetInsertPoint(InsertInto(BranchIfOpen(old(State()), mergeBB), following), following)
    {
      JumpIfOpen(mergeBB);
      Insert(following);
      MoveTo(following);
    }

    method NewForBlocks() returns (initBB: BlockId)
      requires Valid()
      modifies this`blocks, this`layout
      ensures Valid() && State() == ForBlocks(old(State())) && initBB == old(|blocks|)
    {
      initBB := NewBlock(true);
      var condBB := NewBlock(true);
      var bodyBB := NewBlock(true);
      var iterBB := NewBlock(true);
      var afterBB := NewBlock(true);
    }

    /** Creates the five blocks of a for, generates its first part and moves to the condition. */
    method BeginFor(start: Option<Expr>) returns (initBB: BlockId)
      requires Valid()
      modifies this
      ensures Valid() && State() == ForInit(start, old(State())) && initBB == old(|blocks|)
    {
      hide GenExpr, ForBlocks;
      initBB := NewForBlocks();
      var condBB := initBB + 1;
      Append(Br(initBB));
      MoveTo(initBB);
      if start.Some? {
        var v := Expression(start.value);
      }
      Append(Br(condBB));
      MoveTo(condBB);
    }

    method FinishFor(increment: Option<Expr>, initBB: BlockId)
      requires Valid() && initBB + 4 < |blocks| && |scopes| > 1
      modifies this
      ensures Valid() && State() == ForEnd(increment, old(State()), initBB)
    {
      if !HasTerminator(blocks[initBB + 2]) {
        Append(Br(initBB + 3));
      }
      Pop();
      MoveTo(initBB + 3);
      if increment.Some? {
        var v := Expression(increment.value);
      }
      Append(Br(initBB + 1));
      Exit(initBB + 4);
    }

    /** The body of a for, from its conditional branch to its exit. */
    method LoopOfFor(cond: Operand, increment: Option<Expr>, body: seq<Stmt>, initBB: BlockId)
      requires Valid() && initBB + 4 < |blocks|
      modifies this
      ensures Valid()
      ensures State()
              == ForEnd(increment, GenBlock(body, LoopEntry(old(State()), cond, initBB + 2, initBB + 4)).0, initBB)
      decreases body, 3
    {
      EnterLoop(cond, initBB + 2, initBB + 4);
      var v := Block(body);
      FinishFor(increment, initBB);
    }

    method For(s: Stmt) returns (v: Option<Operand>)
      requires Valid() && s.ForStmt?
      modifies this
      ensures Valid() && (State(), v) == GenFor(s, old(State()))
      decreases s, 0
    {
      hide ForInit, ForEnd, LoopEntry, GenExpr, GenBlock;
      var initBB := BeginFor(s.start);
      ghost var c1 := State();
      var cond := Expression(s.cond);
      ghost var c2 := State();
      assert (c2, cond) == GenExpr(s.cond, c1);
      v := None;
      if cond.Some? {
        LoopOfFor(cond.value, s.increment, s.body, initBB);
        assert State()
               == ForEnd(s.increment, GenBlock(s.body, LoopEntry(c2, cond.value, initBB + 2, initBB + 4)).0, initBB);
      }
    }

    method FinishWhile(cond: Operand, block: BlockId, after: BlockId)
      requires Valid() && after < |blocks| && after == block + 1
      modifies this
      ensures Valid()
      ensures State() == WhileEnd(old(State()), cond, block)
    {
      LoopBranch(cond, block, after);
      Insert(after);
      Exit(after);
    }

    method While(s: Stmt) returns (v: Option<Operand>)
      requires Valid() && s.WhileStmt?
      modifies this
      ensures Valid() && (State(), v) == GenWhile(s, old(State()))
      decreases s, 0
    {
      hide GenExpr, GenBlock, LoopEntry, WhileEnd, PopBlock;
      var block := NewBlock(true);
      var after := NewBlock(false);
      var cond := Expression(s.cond);
      if cond.None? {
        return None;
      }
      EnterLoop(cond.value, block, after);
      v := Block(s.body);
      Pop();
      cond := Expression(s.cond);
      if cond.None? {
        return None;
      }
      FinishWhile(cond.value, block, after);
      v := None;
    }

    method Block(ss: seq<Stmt>) returns (last: Option<Operand>)
      requires Valid()
      modifies this
      ensures Valid() && (State(), last) == GenBlock(ss, old(State()))
      decreases ss, 2
    {
      last := None;
      var i := 0;
      ghost var goal := GenBlock(ss, State());
      while i < |ss|
        invariant i <= |ss|
        invariant Valid()
        invariant i < |ss| ==> GenBlock(ss[i..], State()) == goal
        invariant i == |ss| ==> (State(), last) == goal
      {
        assert ss[i..][1..] == ss[i + 1..];
        last := Statement(ss[i]);
        i := i + 1;
      }
    }

    // ----- functions -----

    method FunctionBody(f: Function)
      requires Valid()
      modifies this
      ensures Valid() && State() == GenBlock(f.body, GenParams(f.params, 0, old(State()))).0
    {
      var i := 0;
      while i < |f.params|
        invariant i <= |f.params|
        invariant Valid()
        invariant GenParams(f.params, i, State()) == GenParams(f.params, 0, old(State()))
      {
        var t := Fresh();
        Append(Alloca(t));
        Append(Instr.Store(Arg(i), Temp(t, Pointer)));
        SetValueOf(f.params[i], Temp(t, Pointer));
        i := i + 1;
      }
      var last := Block(f.body);
    }
  }

  /** Code for a whole function, in an object of its own. */
  method Compile(f: Function, next: nat, outer: seq<Scope>) returns (context: CodeGenContext)
    ensures fresh(context) && context.Valid()
    ensures context.State() == GenFunction(f, next, outer)
  {
    context := new CodeGenContext(next, outer);
    context.FunctionBody(f);
  }
}
