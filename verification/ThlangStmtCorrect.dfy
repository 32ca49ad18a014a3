/**
  Generated statement code does what the statement means: the simulation of
  straight-line code, if statements and returns. Every lemma speaks about the
  final code of the function, of which the code at hand is a part.
*/
module ThlangStmtCorrect {
  import opened Wrappers
  import opened TwosComplement
  import opened ThlangAst
  import opened ThlangSemantics
  import opened ThlangIr
  import opened ThlangCodeGen
  import opened ThlangExprCorrect
  import opened ThlangStructure
  import opened ThlangScopes
  import opened ThlangShape

  /**
    Started at the insertion point of c in frame fr, the machine is after n steps
    in configuration k, and k is what the outcome asks for: either the insertion
    point of d with a frame representing the new store, or the function has
    returned the value.
  */
  ghost predicate Runs(code: Code, c: Builder, fr: Frame, d: Builder, o: Outcome, n: nat, k: Config) {
    && Run(code, Here(c, fr), n) == k
    && match o
       case Next(s) =>
         && k.Running? && k == Here(d, k.frame)
         && Represents(d.scopes, d.next, k.frame, s) && Keeps(fr, k.frame, c.next)
       case Returned(v) => k.Done? && k.result == Some(ToBits(v))
  }

  // ----- assignments and declarations -----

  /** A store through a variable's slot updates that variable and no other. */
  lemma StoreRepresents(scopes: seq<Scope>, next: nat, fr: Frame, s: Store, x: string, v: Int32, at: nat)
    requires Represents(scopes, next, fr, s) && x in s && CellOf(scopes, fr, x) == Some(at)
    ensures at < |fr.memory|
    ensures Represents(scopes, next, fr.(memory := fr.memory[at := Some(ToBits(v))]), s[x := v])
  {
    assert Held(scopes, next, fr, s, x);
    var fr' := fr.(memory := fr.memory[at := Some(ToBits(v))]);
    var s' := s[x := v];
    forall y | y in s'
      ensures CellOf(scopes, fr', y) == CellOf(scopes, fr, y) && Held(scopes, next, fr', s', y)
    {
      assert Held(scopes, next, fr, s, y);
      assert y != x ==> CellOf(scopes, fr, y) != CellOf(scopes, fr, x);
    }
  }

  /** A fresh cell represents a newly declared name, which may hide an older one. */
  lemma AllocaRepresents(c: Builder, fr: Frame, s: Store, x: string)
    requires Represents(c.scopes, c.next, fr, s)
    ensures Represents(Declare(c, x).scopes, Declare(c, x).next, Allocated(c, fr), s - {x})
    ensures CellOf(Declare(c, x).scopes, Allocated(c, fr), x) == Some(|fr.memory|)
    ensures GetValue(Declare(c, x).scopes, x) == Some(Temp(c.next, Pointer))
    ensures Keeps(fr, Allocated(c, fr), c.next)
  {
    var d, fr' := Declare(c, x), Allocated(c, fr);
    forall y | y in s - {x}
      ensures CellOf(d.scopes, fr', y) == CellOf(c.scopes, fr, y)
      ensures Held(d.scopes, d.next, fr', s - {x}, y)
    {
      assert Held(c.scopes, c.next, fr, s, y);
      SameLookup(c.scopes, d.scopes, {x}, y);
    }
  }

  function Declare(c: Builder, x: string): Builder {
    SetValue(EmitTemp(c, Alloca(c.next)), x, Temp(c.next, Pointer))
  }

  function Allocated(c: Builder, fr: Frame): Frame {
    SetTemp(fr, c.next, Address(|fr.memory|)).(memory := fr.memory + [None])
  }

  /** Initialising the fresh cell completes the declaration. */
  lemma InitRepresents(scopes: seq<Scope>, next: nat, fr: Frame, s: Store, x: string, v: Int32, at: nat)
    requires Represents(scopes, next, fr, s - {x}) && SlotBelow(scopes, next, x) && CellOf(scopes, fr, x) == Some(at)
    requires forall y :: y in s && y != x ==> CellOf(scopes, fr, y) != Some(at)
    ensures at < |fr.memory|
    ensures Represents(scopes, next, fr.(memory := fr.memory[at := Some(ToBits(v))]), s[x := v])
  {
    var fr' := fr.(memory := fr.memory[at := Some(ToBits(v))]);
    var s' := s[x := v];
    forall y | y in s'
      ensures CellOf(scopes, fr', y) == CellOf(scopes, fr, y) && Held(scopes, next, fr', s', y)
    {
      if y != x {
        assert Held(scopes, next, fr, s - {x}, y);
      }
    }
  }

  /** The store instruction that ends an assignment or a declaration. */
  lemma StoreStep(code: Code, c: Builder, o: Operand, id: nat, at: nat, bits: nat, fr: Frame)
    requires Extends(code, Emit(c, Instr.Store(o, Temp(id, Pointer))).blocks)
    requires OperandValue(o, fr) == Some(Bits(I32, bits))
    requires id in fr.temps && fr.temps[id] == Address(at) && at < |fr.memory|
    ensures Step(code, Here(c, fr)) ==
              Here(Emit(c, Instr.Store(o, Temp(id, Pointer))), fr.(memory := fr.memory[at := Some(bits)]))
  {
    StepAppended(code, c, Instr.Store(o, Temp(id, Pointer)), fr);
  }

  lemma AssignCorrect(code: Code, x: string, e: Expr, c: Builder, fr: Frame, s: Store) returns (n: nat, fr': Frame)
    requires AssignOk(x, e, s.Keys) && Represents(c.scopes, c.next, fr, s)
    requires Extends(code, GenExpr(Assign(x, e), c).0.blocks)
    ensures var d := GenExpr(Assign(x, e), c).0;
            Runs(code, c, fr, d, Next(s[x := Eval(e, s).n]), n, Here(d, fr'))
  {
    hide Represents, Extends, Held, Step, Run, Keeps, OperandValue, Runs, GenExpr, TypeOf, Eval, ToBits;
    var id, at := AssignCell(x, e, c, fr, s);
    var c1 := GenExpr(e, c).0;
    AssignExtends(code, x, e, c, id);
    var n1, fr1 := ExprCorrect(code, e, c, fr, s);
    RepresentsKept(c.scopes, c.next, fr, s, fr1, c1.next);
    AssignEnd(code, x, e, c, fr, s, id, at, n1, fr1);
    n, fr' := n1 + 1, fr1.(memory := fr1.memory[at := Some(ToBits(Eval(e, s).n))]);
  }

  lemma AssignCell(x: string, e: Expr, c: Builder, fr: Frame, s: Store) returns (id: nat, at: nat)
    requires AssignOk(x, e, s.Keys) && Represents(c.scopes, c.next, fr, s)
    ensures GetValue(c.scopes, x) == Some(Temp(id, Pointer)) && id < c.next
    ensures id in fr.temps && fr.temps[id] == Address(at) && at < |fr.memory|
  {
    assert Held(c.scopes, c.next, fr, s, x);
    id, at := HeldCell(c.scopes, c.next, fr, s, x);
  }

  lemma AssignExtends(code: Code, x: string, e: Expr, c: Builder, id: nat)
    requires GetValue(c.scopes, x) == Some(Temp(id, Pointer))
    requires Extends(code, GenExpr(Assign(x, e), c).0.blocks)
    ensures Extends(code, GenExpr(e, c).0.blocks)
  {
    hide Extends, GenExpr, Emit;
    AssignIs(x, e, c, id);
    var (c1, o) := GenExpr(e, c);
    if o.Some? {
      EmitExtends(code, c1, Instr.Store(o.value, Temp(id, Pointer)));
    }
  }

  lemma {:induction false} AssignIs(x: string, e: Expr, c: Builder, id: nat)
    requires GetValue(c.scopes, x) == Some(Temp(id, Pointer))
    ensures var (c1, o) := GenExpr(e, c);
            GenExpr(Assign(x, e), c).0 == if o.None? then c1 else Emit(c1, Instr.Store(o.value, Temp(id, Pointer)))
  {
    hide Emit;
  }

  lemma AssignEnd(code: Code, x: string, e: Expr, c: Builder, fr: Frame, s: Store, id: nat, at: nat, n: nat, fr1: Frame)
    requires AssignOk(x, e, s.Keys)
    requires GetValue(c.scopes, x) == Some(Temp(id, Pointer)) && id < c.next
    requires id in fr.temps && fr.temps[id] == Address(at) && at < |fr.memory|
    requires ExprRuns(code, e, c, fr, s, n, fr1)
    requires Represents(c.scopes, GenExpr(e, c).0.next, fr1, s)
    requires Extends(code, GenExpr(Assign(x, e), c).0.blocks)
    ensures at < |fr1.memory|
    ensures Runs(code, c, fr, GenExpr(Assign(x, e), c).0, Next(s[x := Eval(e, s).n]), n + 1,
                 Here(GenExpr(Assign(x, e), c).0, fr1.(memory := fr1.memory[at := Some(ToBits(Eval(e, s).n))])))
  {
    var (c1, o) := GenExpr(e, c);
    var v := Eval(e, s).n;
    StoreRepresents(c.scopes, c1.next, fr1, s, x, v, at);
    hide Represents, Extends, Step, Run;
    StoreStep(code, c1, o.value, id, at, ToBits(v), fr1);
    RunOneMore(code, Here(c, fr), n);
  }

  lemma VarCorrect(code: Code, x: string, e: Expr, c: Builder, fr: Frame, s: Store) returns (n: nat, fr': Frame)
    requires TypeOf(e, s.Keys - {x}) == Some(IntTy) && Represents(c.scopes, c.next, fr, s)
    requires Extends(code, GenVar(x, Some(e), c).0.blocks)
    ensures (s - {x}).Keys == s.Keys - {x}
    ensures Runs(code, c, fr, GenVar(x, Some(e), c).0, Next(s[x := Eval(e, s - {x}).n]), n,
                 Here(GenVar(x, Some(e), c).0, fr'))
  {
    hide Extends, Represents, Step, Run, TypeOf, Eval;
    assert (s - {x}).Keys == s.Keys - {x};
    var c1, fr1 := Declare(c, x), Allocated(c, fr);
    AllocaRepresents(c, fr, s, x);
    var (c2, o) := GenExpr(e, c1);
    if o.Some? {
      EmitExtends(code, c2, Instr.Store(o.value, Temp(c.next, Pointer)));
    }
    ExprExtends(code, e, c1);
    AllocaStep(code, c, x, fr);
    var n1, fr2 := ExprCorrect(code, e, c1, fr1, s - {x});
    VarEnd(code, x, e, c, fr, s, n1, fr2);
    n, fr' := n1 + 2, fr2.(memory := fr2.memory[|fr.memory| := Some(ToBits(Eval(e, s - {x}).n))]);
  }

  /** A return without a value, or whose expression the generator fails at, ends the run with no result. */
  lemma VoidReturn(code: Code, v: Option<Expr>, c: Builder, fr: Frame)
    requires v.Some? ==> GenExpr(v.value, c).1.None?
    requires Extends(code, GenStmt(ReturnStmt(v), c).0.blocks)
    ensures var c1 := if v.None? then c else GenExpr(v.value, c).0;
            Step(code, Here(c1, fr)) == Done(None, fr) && GenStmt(ReturnStmt(v), c).1.None?
  {
    hide Extends, GenExpr;
    StepAppended(code, if v.None? then c else GenExpr(v.value, c).0, RetVoid, fr);
  }

  /**
    A declaration without an initialiser and an assignment behind it are the declaration with that initialiser. It is
    not null either, so a branch may end in it.
  */
  lemma DeclareThenAssign(x: string, e: Expr, c: Builder)
    ensures GenStmt(VarStmt(x, None), c).1.Some?
    ensures GenBlock([VarStmt(x, None), ExprStmt(Assign(x, e))], c) == GenStmt(VarStmt(x, Some(e)), c)
  {
    var ss := [VarStmt(x, None), ExprStmt(Assign(x, e))];
    var c1 := GenStmt(ss[0], c).0;
    assert ss[1..] == [ss[1]];
    assert GenBlock(ss, c) == GenStmt(ss[1], c1);
    assert GetValue(c1.scopes, x) == Some(Temp(c.next, Pointer));
  }

  lemma AllocaStep(code: Code, c: Builder, x: string, fr: Frame)
    requires Extends(code, Declare(c, x).blocks)
    ensures Step(code, Here(c, fr)) == Here(Declare(c, x), Allocated(c, fr))
  {
    StepAppended(code, c, Alloca(c.next), fr);
  }

  lemma FreshCell(c: Builder, fr: Frame, s: Store, x: string, fr2: Frame)
    requires Represents(Declare(c, x).scopes, Declare(c, x).next, Allocated(c, fr), s - {x})
    requires CellOf(Declare(c, x).scopes, Allocated(c, fr), x) == Some(|fr.memory|)
    requires Represents(c.scopes, c.next, fr, s)
    requires Keeps(Allocated(c, fr), fr2, c.next + 1)
    ensures forall y :: y in s && y != x ==> CellOf(Declare(c, x).scopes, fr2, y) != Some(|fr.memory|)
  {
    forall y | y in s && y != x
      ensures CellOf(Declare(c, x).scopes, fr2, y) != Some(|fr.memory|)
    {
      assert Held(c.scopes, c.next, fr, s, y);
      SameLookup(c.scopes, Declare(c, x).scopes, {x}, y);
    }
  }

  lemma VarEnd(code: Code, x: string, e: Expr, c: Builder, fr: Frame, s: Store, n: nat, fr2: Frame)
    requires TypeOf(e, s.Keys - {x}) == Some(IntTy) && (s - {x}).Keys == s.Keys - {x}
    requires Represents(c.scopes, c.next, fr, s)
    requires ExprRuns(code, e, Declare(c, x), Allocated(c, fr), s - {x}, n, fr2)
    requires Step(code, Here(c, fr)) == Here(Declare(c, x), Allocated(c, fr))
    requires Extends(code, GenVar(x, Some(e), c).0.blocks)
    ensures |fr.memory| < |fr2.memory|
    ensures Runs(code, c, fr, GenVar(x, Some(e), c).0, Next(s[x := Eval(e, s - {x}).n]), n + 2,
                 Here(GenVar(x, Some(e), c).0,
                      fr2.(memory := fr2.memory[|fr.memory| := Some(ToBits(Eval(e, s - {x}).n))])))
  {
    hide Represents, Extends, Step, Eval, TypeOf, Effect, Declare, Allocated, Keeps, Run, OperandValue, ToBits;
    hide GetValue, GenVar, Emit, EmitTemp, SetValue, CellOf, SlotBelow, IsOperandOf;
    var at := |fr.memory|;
    var c1, fr1 := Declare(c, x), Allocated(c, fr);
    var (c2, o) := GenExpr(e, c1);
    var v := Eval(e, s - {x}).n;
    VarIs(x, e, c);
    OneCellMore(c, fr);
    VarRepresents(c, fr, s, x, fr2, c2.next, v);
    AllocaRepresents(c, fr, s, x);
    hide GenExpr;
    StoreStep(code, c2, o.value, c.next, at, ToBits(v), fr2);
    RunOneMore(code, Here(c1, fr1), n);
    FirstStep(code, Here(c, fr), Here(c1, fr1), n + 1);
    KeepsTransitive(fr, fr1, fr2, c.next, c1.next);
    SetMemoryKeeps(fr, fr2, c.next, fr2.memory[at := Some(ToBits(v))]);
  }

  lemma VarIs(x: string, e: Expr, c: Builder)
    requires GenExpr(e, Declare(c, x)).1.Some?
    ensures var (c2, o) := GenExpr(e, Declare(c, x));
            GenVar(x, Some(e), c).0 == Emit(c2, Instr.Store(o.value, Temp(c.next, Pointer)))
            && GenVar(x, Some(e), c).0.scopes == Declare(c, x).scopes && GenVar(x, Some(e), c).0.next == c2.next
            && Declare(c, x).next == c.next + 1 && c2.scopes == Declare(c, x).scopes
  {
    hide GenExpr;
  }

  lemma OneCellMore(c: Builder, fr: Frame)
    ensures |Allocated(c, fr).memory| == |fr.memory| + 1
  {
  }

  lemma FirstStep(code: Code, a: Config, b: Config, n: nat)
    requires Step(code, a) == b
    ensures Run(code, a, n + 1) == Run(code, b, n)
  {
    hide Step;
  }

  lemma SetMemoryKeeps(fr: Frame, fr2: Frame, next: nat, memory: seq<Option<nat>>)
    requires Keeps(fr, fr2, next) && |memory| == |fr2.memory|
    ensures Keeps(fr, fr2.(memory := memory), next)
  {
  }

  /** With the initial value stored in its cell, the declared variable is represented as well. */
  lemma VarRepresents(c: Builder, fr: Frame, s: Store, x: string, fr2: Frame, next: nat, v: Int32)
    requires Represents(c.scopes, c.next, fr, s) && c.next + 1 <= next
    requires Keeps(Allocated(c, fr), fr2, c.next + 1) && fr2.memory == Allocated(c, fr).memory
    ensures |fr2.memory| == |fr.memory| + 1
    ensures c.next in fr2.temps && fr2.temps[c.next] == Address(|fr.memory|)
    ensures Represents(Declare(c, x).scopes, next, fr2.(memory := fr2.memory[|fr.memory| := Some(ToBits(v))]),
                       s[x := v])
  {
    var c1, fr1 := Declare(c, x), Allocated(c, fr);
    AllocaRepresents(c, fr, s, x);
    assert c.next in fr2.temps && fr2.temps[c.next] == Address(|fr.memory|) && c1.next == c.next + 1;
    hide Represents, Keeps, Declare, Allocated;
    FreshCell(c, fr, s, x, fr2);
    RepresentsKept(c1.scopes, c1.next, fr1, s - {x}, fr2, next);
    InitRepresents(c1.scopes, next, fr2, s, x, v, |fr.memory|);
  }

  // ----- conditions -----

  /** The condition of an if ends up as one bit that says whether the value counts as true. */
  lemma IfCondRuns(code: Code, c: Builder, o: Operand, v: Value, t: Ty, fr: Frame) returns (n: nat, fr': Frame)
    requires TypeOfOperand(o) == IrType(t) && Encode(v).ty == IrType(t) && (v.Num? ==> IsSigned(v.n))
    requires OperandValue(o, fr) == Some(Encode(v))
    requires Extends(code, EmitIfCond(c, o).0.blocks)
    ensures Run(code, Here(c, fr), n) == Here(EmitIfCond(c, o).0, fr')
    ensures OperandValue(EmitIfCond(c, o).1, fr') == Some(Bits(I1, if IfTruth(v) then 1 else 0))
    ensures Keeps(fr, fr', c.next) && fr'.memory == fr.memory
  {
    if t == BoolTy {
      n, fr' := 0, fr;
    } else {
      SignedInvertsToBits(v.n);
      StepAppended(code, c, ICmp(c.next, NE, o, Const(I32, 0)), fr);
      RunOneMore(code, Here(c, fr), 0);
      n, fr' := 1, SetTemp(fr, c.next, Bits(I1, if IfTruth(v) then 1 else 0));
    }
  }

  lemma IfHeadExtends(code: Code, c: Builder, o: Operand)
    requires Extends(code, IfHead(c, o).blocks)
    ensures Extends(code, EmitIfCond(c, o).0.blocks)
    ensures var (c1, b) := EmitIfCond(c, o);
            forall fr :: Step(code, Here(c1, fr)) == Jump(CondBr(b, |c.blocks|, |c.blocks| + 1), fr)
  {
    var (c1, b) := EmitIfCond(c, o);
    var c2 := CreateBlock(CreateBlock(CreateBlock(c1, true), false), false);
    forall i | 0 <= i < |c1.blocks|
      ensures c1.blocks[i] <= code[i]
    {
      assert c1.blocks[i] <= IfHead(c, o).blocks[i] <= code[i];
    }
    assert c2.cur == c1.cur && c2.blocks[c1.cur] == c1.blocks[c1.cur];
    forall fr
      ensures Step(code, Here(c1, fr)) == Jump(CondBr(b, |c.blocks|, |c.blocks| + 1), fr)
    {
      StepAppended(code, c2, CondBr(b, |c.blocks|, |c.blocks| + 1), fr);
    }
  }

  /** From the value of the condition to the start of the branch it selects. */
  lemma IfHeadRuns(code: Code, c: Builder, o: Operand, v: Value, t: Ty, fr: Frame) returns (n: nat, fr': Frame)
    requires TypeOfOperand(o) == IrType(t) && Encode(v).ty == IrType(t) && (v.Num? ==> IsSigned(v.n))
    requires OperandValue(o, fr) == Some(Encode(v))
    requires Extends(code, IfHead(c, o).blocks)
    ensures Run(code, Here(c, fr), n) == Running(if IfTruth(v) then |c.blocks| else |c.blocks| + 1, 0, fr')
    ensures Keeps(fr, fr', c.next) && fr'.memory == fr.memory
  {
    IfHeadExtends(code, c, o);
    hide Extends, IfHead;
    n, fr' := IfCondRuns(code, c, o, v, t, fr);
    RunOneMore(code, Here(c, fr), n);
    n := n + 1;
  }

  // ----- if -----

  /** An open branch goes on to the merge block with one more step. */
  lemma JumpRuns(code: Code, c: Builder, b: BlockId, fr: Frame)
    requires Open(c) && Extends(code, BranchIfOpen(c, b).blocks)
    ensures Step(code, Here(c, fr)) == Running(b, 0, fr)
  {
    StepAppended(code, c, Br(b), fr);
  }

  lemma RunsOn(code: Code, a: Config, m: nat, b: Config, n: nat, k: Config)
    requires Run(code, a, m) == b && Run(code, b, n) == k
    ensures Run(code, a, m + n) == k
  {
    RunAdds(code, a, m, n);
  }

  /** The code of an if extends the code of each of its stages. */
  lemma IfExtends(code: Code, s: Stmt, c: Builder, names: set<string>)
    requires s.IfStmt? && StmtOk(s, names) && AllBound(c.scopes, c.next, names) && Open(c)
    requires Extends(code, GenIf(s, c).0.blocks)
    ensures GenExpr(s.cond, c).1.Some?
    ensures Extends(code, GenExpr(s.cond, c).0.blocks)
    ensures Extends(code, ThenStart(s, c).blocks)
    ensures Extends(code, ThenEnd(s, c).blocks)
    ensures Extends(code, BranchIfOpen(ThenEnd(s, c), |c.blocks| + 2).blocks)
    ensures Extends(code, ElseStart(s, c).blocks)
    ensures Extends(code, ElseEnd(s, c).blocks)
    ensures Completed(s.els) ==>
              Extends(code, BranchIfOpen(ElseEnd(s, c), |c.blocks| + 2).blocks)
  {
    hide *;
    IfShape(s, c, names);
    ElseEmptyBlocks(s, c);
    if Completed(s.els) {
      IfTailGrew(ElseEnd(s, c), |c.blocks|);
      GrewExtends(code, ElseEnd(s, c), IfTail(ElseEnd(s, c), |c.blocks| + 2), |c.blocks|);
      IfTailExtends(code, ElseEnd(s, c), |c.blocks| + 2);
    }
    ElseStartExtends(code, s, c);
    ThenEndExtends(code, s, c);
    ThenStartExtends(code, s, c);
  }

  lemma IfTailExtends(code: Code, c: Builder, m: BlockId)
    requires m < |c.blocks| && Extends(code, IfTail(c, m).blocks)
    ensures Extends(code, BranchIfOpen(c, m).blocks)
  {
    assert IfTail(c, m).blocks == BranchIfOpen(c, m).blocks;
  }

  lemma ElseStartExtends(code: Code, s: Stmt, c: Builder)
    requires s.IfStmt? && GenExpr(s.cond, c).1.Some?
    requires Extends(code, ElseEnd(s, c).blocks)
    ensures Extends(code, ElseStart(s, c).blocks)
  {
    if s.els.Else? {
      BlockGrew(s.els.stmts, ElseStart(s, c));
      hide GenBlock, GenExpr, ElseStart, GrewFrom, Extends;
      GrewExtends(code, ElseStart(s, c), ElseEnd(s, c), |ElseStart(s, c).blocks|);
    }
  }

  lemma ThenEndExtends(code: Code, s: Stmt, c: Builder)
    requires s.IfStmt? && GenExpr(s.cond, c).1.Some?
    requires Extends(code, ElseStart(s, c).blocks)
    ensures Extends(code, BranchIfOpen(ThenEnd(s, c), |c.blocks| + 2).blocks)
    ensures Extends(code, ThenEnd(s, c).blocks)
  {
    ThenEmptyBlocks(s, c);
    hide ThenEnd, GenExpr, GenBlock;
    IfMiddleGrew(ThenEnd(s, c), |c.blocks|);
    GrewExtends(code, ThenEnd(s, c), ElseStart(s, c), |c.blocks|);
    assert ElseStart(s, c).blocks == BranchIfOpen(ThenEnd(s, c), |c.blocks| + 2).blocks;
  }

  lemma ThenStartExtends(code: Code, s: Stmt, c: Builder)
    requires s.IfStmt? && GenExpr(s.cond, c).1.Some?
    requires Extends(code, ThenEnd(s, c).blocks)
    ensures Extends(code, ThenStart(s, c).blocks)
    ensures Extends(code, GenExpr(s.cond, c).0.blocks)
  {
    BlockGrew(s.thn, ThenStart(s, c));
    var (c1, o) := GenExpr(s.cond, c);
    IfHeadGrew(c1, o.value);
    hide GenBlock, GenExpr, GrewFrom, Extends, IfHead;
    GrewExtends(code, ThenStart(s, c), ThenEnd(s, c), |ThenStart(s, c).blocks|);
    GrewExtends(code, c1, ThenStart(s, c), |c1.blocks|);
  }

  /** Names that generation did not rebind are represented as before. */
  lemma RepresentsElsewhere(a: seq<Scope>, n: nat, b: seq<Scope>, m: nat, changed: set<string>, fr: Frame, s: Store,
                            s': Store)
    requires Represents(a, n, fr, s) && SameOutside(a, b, changed) && n <= m
    requires s'.Keys <= s.Keys && s'.Keys !! changed && forall x :: x in s' ==> s'[x] == s[x]
    ensures Represents(b, m, fr, s')
  {
    forall x | x in s'
      ensures CellOf(b, fr, x) == CellOf(a, fr, x) && Held(b, m, fr, s', x)
    {
      assert Held(a, n, fr, s, x);
      SameLookup(a, b, changed, x);
    }
  }

  function ForgetOutcome(o: Outcome, names: set<string>): Outcome
    requires o.Next? ==> names <= o.store.Keys
  {
    match o
    case Next(inner) => Next(Forget(inner, names))
    case Returned(v) => o
  }

  /** A run to builder b, followed by what runs from there. */
  lemma RunsFrom(code: Code, c: Builder, fr: Frame, m: nat, b: Builder, frb: Frame, d: Builder, o: Outcome, n: nat,
                 k: Config)
    requires Run(code, Here(c, fr), m) == Here(b, frb) && Keeps(fr, frb, c.next) && c.next <= b.next
    requires Runs(code, b, frb, d, o, n, k)
    ensures Runs(code, c, fr, d, o, m + n, k)
  {
    RunsOn(code, Here(c, fr), m, Here(b, frb), n, k);
    if o.Next? {
      KeepsTransitive(fr, frb, k.frame, c.next, b.next);
    }
  }

  /** A finished branch goes on behind the if, and what it declared is forgotten. */
  lemma BranchEnds(code: Code, b: Builder, fr: Frame, e: Builder, d: Builder, changed: set<string>,
                   names: set<string>, o: Outcome, n: nat, k: Config) returns (n': nat, k': Config)
    requires Runs(code, b, fr, e, o, n, k)
    requires o.Next? ==> names <= o.store.Keys && Open(e) && Extends(code, BranchIfOpen(e, d.cur).blocks)
    requires EmptyAt(d, d.cur) && SameOutside(e.scopes, d.scopes, changed) && changed !! names && e.next <= d.next
    ensures Runs(code, b, fr, d, ForgetOutcome(o, names), n', k')
  {
    n', k' := n, k;
    if o.Next? {
      JumpRuns(code, e, d.cur, k.frame);
      RunOneMore(code, Here(b, fr), n);
      RepresentsElsewhere(e.scopes, e.next, d.scopes, d.next, changed, k.frame, o.store, Forget(o.store, names));
      n', k' := n + 1, Here(d, k.frame);
    }
  }

  /** A branch that is not followed by a jump, because its last statement is an if. */
  lemma BranchFallsThrough(code: Code, b: Builder, fr: Frame, e: Builder, names: set<string>, o: Outcome, n: nat,
                           k: Config)
    requires Runs(code, b, fr, e, o, n, k)
    requires o.Next? ==> names <= o.store.Keys
    ensures Runs(code, b, fr, e, ForgetOutcome(o, names), n, k)
  {
    if o.Next? {
      SameOutsideSelf(e.scopes, {});
      RepresentsElsewhere(e.scopes, e.next, e.scopes, e.next, {}, k.frame, o.store, Forget(o.store, names));
    }
  }

  // ----- statements -----

  lemma ExprStmtCorrect(code: Code, e: Expr, c: Builder, fr: Frame, s: Store) returns (n: nat, fr': Frame)
    requires ExprStmtOk(e, s.Keys) && Represents(c.scopes, c.next, fr, s)
    requires Extends(code, GenExpr(e, c).0.blocks)
    ensures Runs(code, c, fr, GenExpr(e, c).0, Exec(ExprStmt(e), s), n, Here(GenExpr(e, c).0, fr'))
  {
    if e.Assign? {
      n, fr' := AssignCorrect(code, e.target, e.rhs, c, fr, s);
    } else {
      n, fr' := ExprCorrect(code, e, c, fr, s);
      RepresentsKept(c.scopes, c.next, fr, s, fr', GenExpr(e, c).0.next);
    }
  }

  lemma ReturnCorrect(code: Code, e: Expr, c: Builder, fr: Frame, s: Store) returns (n: nat, k: Config)
    requires TypeOf(e, s.Keys) == Some(IntTy) && Represents(c.scopes, c.next, fr, s)
    requires Extends(code, GenStmt(ReturnStmt(Some(e)), c).0.blocks)
    ensures Runs(code, c, fr, c, Returned(Eval(e, s).n), n, k)
  {
    hide Represents, Extends, Run, Keeps, GenExpr, TypeOf, Eval, Step, OperandValue, ToBits, Emit;
    var (c1, o) := GenExpr(e, c);
    ReturnIs(e, c);
    EmitExtends(code, c1, if o.None? then RetVoid else Ret(o.value));
    var n1, fr1 := ExprCorrect(code, e, c, fr, s);
    ReturnStep(code, c1, o.value, Eval(e, s).n, fr1);
    RunOneMore(code, Here(c, fr), n1);
    n, k := n1 + 1, Done(Some(ToBits(Eval(e, s).n)), fr1);
  }

  lemma ReturnIs(e: Expr, c: Builder)
    ensures var (c1, o) := GenExpr(e, c);
            GenStmt(ReturnStmt(Some(e)), c).0 == Emit(c1, if o.None? then RetVoid else Ret(o.value))
  {
    hide GenExpr, Emit;
  }

  lemma ReturnStep(code: Code, c: Builder, o: Operand, n: int, fr: Frame)
    requires Extends(code, Emit(c, Ret(o)).blocks) && OperandValue(o, fr) == Some(Bits(I32, ToBits(n)))
    ensures Step(code, Here(c, fr)) == Done(Some(ToBits(n)), fr)
  {
    hide Extends;
    StepAppended(code, c, Ret(o), fr);
  }

  /** Where the two branches of an if are left, seen from the end of the statement. */
  lemma IfEnds(s: Stmt, c: Builder, names: set<string>)
    requires s.IfStmt? && StmtOk(s, names) && AllBound(c.scopes, c.next, names) && Open(c)
    requires GenExpr(s.cond, c).1.Some?
    ensures SameOutside(ThenEnd(s, c).scopes, GenIf(s, c).0.scopes, DeclaredIn(ElseOf(s.els)))
    ensures ThenEnd(s, c).next <= GenIf(s, c).0.next
    ensures Completed(s.els) ==>
              && GenIf(s, c).0.cur == |c.blocks| + 2 && EmptyAt(GenIf(s, c).0, |c.blocks| + 2)
              && GenIf(s, c).0.scopes == ElseEnd(s, c).scopes && ElseEnd(s, c).next <= GenIf(s, c).0.next
    ensures !Completed(s.els) ==> GenIf(s, c).0 == ElseEnd(s, c)
  {
    IfShape(s, c, names);
    ElseEmptyBlocks(s, c);
    assert ElseStart(s, c).next == ThenEnd(s, c).next && ElseStart(s, c).scopes == ThenEnd(s, c).scopes;
    if s.els.Else? {
      BlockGrew(s.els.stmts, ElseStart(s, c));
      BlockScopes(s.els.stmts, ElseStart(s, c));
    } else {
      SameOutsideSelf(ElseEnd(s, c).scopes, {});
    }
    hide GenExpr, GenBlock, GenIf, StmtOk, BlockOk, AllBound, Open, ThenEnd, ElseStart, EmptyAt, SameOutside;
  }

  lemma {:induction false} StmtCorrect(code: Code, s: Stmt, c: Builder, fr: Frame, store: Store)
    returns (n: nat, k: Config)
    requires StmtOk(s, store.Keys) && Represents(c.scopes, c.next, fr, store) && Open(c)
    requires Extends(code, GenStmt(s, c).0.blocks)
    ensures Runs(code, c, fr, GenStmt(s, c).0, Exec(s, store), n, k)
    decreases s, 2
  {
    match s
    case ExprStmt(e) =>
      var fr';
      n, fr' := ExprStmtCorrect(code, e, c, fr, store);
      k := Here(GenExpr(e, c).0, fr');
    case VarStmt(x, init) =>
      var fr';
      n, fr' := VarCorrect(code, x, init.value, c, fr, store);
      k := Here(GenVar(x, init, c).0, fr');
    case IfStmt(_, _, _) =>
      n, k := IfCorrect(code, s, c, fr, store);
    case ReturnStmt(v) =>
      n, k := ReturnCorrect(code, v.value, c, fr, store);
  }

  lemma IfCondTyped(s: Stmt, names: set<string>)
    requires s.IfStmt? && StmtOk(s, names)
    ensures TypeOf(s.cond, names).Some? && DeclaredIn(s.thn) !! names
  {
  }

  /** The condition selects the branch, and the branch runs to the end of the if. */
  lemma {:induction false} IfCorrect(code: Code, s: Stmt, c: Builder, fr: Frame, store: Store)
    returns (n: nat, k: Config)
    requires s.IfStmt? && StmtOk(s, store.Keys) && Represents(c.scopes, c.next, fr, store) && Open(c)
    requires Extends(code, GenIf(s, c).0.blocks)
    ensures Runs(code, c, fr, GenIf(s, c).0, Exec(s, store), n, k)
    decreases s, 1
  {
    hide GenExpr, GenIf, StmtOk, Represents, Open, Extends, ThenStart, ThenEnd, ElseStart, ElseEnd, BranchIfOpen, Runs;
    hide Exec, AllBound, EmptyAt, Eval, TypeOf;
    assert TypeOf(s.cond, store.Keys).Some? by { IfCondTyped(s, store.Keys); }
    RepresentedBound(c.scopes, c.next, fr, store);
    IfExtends(code, s, c, store.Keys);
    var n1, fr1 := ToBranch(code, s, c, fr, store);
    if IfTruth(Eval(s.cond, store)) {
      var n2;
      n2, k := ThenCorrect(code, s, c, fr1, store);
      n := n1 + n2;
      RunsFrom(code, c, fr, n1, ThenStart(s, c), fr1, GenIf(s, c).0, Exec(s, store), n2, k);
    } else {
      var n2;
      n2, k := ElseCorrect(code, s, c, fr1, store);
      n := n1 + n2;
      RunsFrom(code, c, fr, n1, ElseStart(s, c), fr1, GenIf(s, c).0, Exec(s, store), n2, k);
    }
  }

  /** From the if to the start of the branch its condition selects. */
  lemma ToBranch(code: Code, s: Stmt, c: Builder, fr: Frame, store: Store) returns (n: nat, fr': Frame)
    requires s.IfStmt? && StmtOk(s, store.Keys) && Represents(c.scopes, c.next, fr, store) && GenExpr(s.cond, c).1.Some?
    requires Extends(code, GenExpr(s.cond, c).0.blocks) && Extends(code, ThenStart(s, c).blocks)
    ensures var b := if IfTruth(Eval(s.cond, store)) then ThenStart(s, c) else ElseStart(s, c);
            && Run(code, Here(c, fr), n) == Here(b, fr')
            && Represents(b.scopes, b.next, fr', store) && Open(b) && c.next <= b.next
    ensures Keeps(fr, fr', c.next)
  {
    hide StmtOk, Represents, Extends, Open, IfHead, ThenStart, ElseStart, EmptyAt, AllBound, Eval, TypeOf, GenExpr;
    hide Encode, Keeps, OperandValue, Run, DeclaredIn, Declared;
    IfCondTyped(s, store.Keys);
    ThenStartIs(s, c);
    var (c1, o) := GenExpr(s.cond, c);
    var v := Eval(s.cond, store);
    var n1, fr1 := ExprCorrect(code, s.cond, c, fr, store);
    EncodedType(s.cond, store);
    ValueInRange(s.cond, store);
    var t := TypeOf(s.cond, store.Keys).value;
    var n2, fr2 := IfHeadRuns(code, c1, o.value, v, t, fr1);
    RunsOn(code, Here(c, fr), n1, Here(c1, fr1), n2,
           Running(if IfTruth(v) then |c.blocks| else |c.blocks| + 1, 0, fr2));
    KeepsTransitive(fr, fr1, fr2, c.next, c1.next);
    n, fr' := n1 + n2, fr2;
    ThenStarts(s, c, fr, store, fr2);
    ElseStarts(s, c, fr, store, fr2);
  }

  lemma ThenStartIs(s: Stmt, c: Builder)
    requires s.IfStmt? && GenExpr(s.cond, c).1.Some?
    ensures ThenStart(s, c) == IfHead(GenExpr(s.cond, c).0, GenExpr(s.cond, c).1.value)
  {
    hide GenExpr, IfHead;
  }

  lemma ValueInRange(e: Expr, s: Store)
    requires TypeOf(e, s.Keys).Some?
    ensures Eval(e, s).Num? ==> IsSigned(Eval(e, s).n)
  {
  }

  /** At the start of either branch the store is represented, and the block is empty. */
  lemma ThenStarts(s: Stmt, c: Builder, fr: Frame, store: Store, fr': Frame)
    requires s.IfStmt? && GenExpr(s.cond, c).1.Some?
    requires Represents(c.scopes, c.next, fr, store) && Keeps(fr, fr', c.next) && fr'.memory == fr.memory
    ensures Here(ThenStart(s, c), fr') == Running(|c.blocks|, 0, fr')
    ensures Open(ThenStart(s, c)) && c.next <= ThenStart(s, c).next
    ensures Represents(ThenStart(s, c).scopes, ThenStart(s, c).next, fr', store)
  {
    hide GenExpr, ThenStart, Represents, Open;
    RepresentedBound(c.scopes, c.next, fr, store);
    ThenStartBound(s, c, store.Keys);
    ThenStartEmpty(s, c);
    RepresentsKept(c.scopes, c.next, fr, store, fr', ThenStart(s, c).next);
  }

  lemma ElseStarts(s: Stmt, c: Builder, fr: Frame, store: Store, fr': Frame)
    requires s.IfStmt? && GenExpr(s.cond, c).1.Some? && DeclaredIn(s.thn) !! store.Keys
    requires Represents(c.scopes, c.next, fr, store) && Keeps(fr, fr', c.next) && fr'.memory == fr.memory
    ensures Here(ElseStart(s, c), fr') == Running(|c.blocks| + 1, 0, fr')
    ensures Open(ElseStart(s, c)) && c.next <= ElseStart(s, c).next
    ensures Represents(ElseStart(s, c).scopes, ElseStart(s, c).next, fr', store)
  {
    hide GenExpr, ElseStart, Represents, Open, Keeps, DeclaredIn, AllBound, EmptyAt;
    RepresentedBound(c.scopes, c.next, fr, store);
    ElseStartBound(s, c, store.Keys);
    ElseStartHere(s, c, fr');
    RepresentsKept(c.scopes, c.next, fr, store, fr', c.next);
    hide SameOutside;
    RepresentsElsewhere(c.scopes, c.next, ElseStart(s, c).scopes, ElseStart(s, c).next, DeclaredIn(s.thn), fr', store,
                        store);
  }

  lemma ElseStartHere(s: Stmt, c: Builder, fr: Frame)
    requires s.IfStmt? && GenExpr(s.cond, c).1.Some?
    ensures Here(ElseStart(s, c), fr) == Running(|c.blocks| + 1, 0, fr) && Open(ElseStart(s, c))
  {
    hide GenExpr, ElseStart, Open;
    ElseStartEmpty(s, c);
  }

  lemma {:induction false} ThenCorrect(code: Code, s: Stmt, c: Builder, fr: Frame, store: Store)
    returns (n: nat, k: Config)
    requires s.IfStmt? && StmtOk(s, store.Keys) && AllBound(c.scopes, c.next, store.Keys) && Open(c)
    requires GenExpr(s.cond, c).1.Some? && IfTruth(Eval(s.cond, store))
    requires Represents(ThenStart(s, c).scopes, ThenStart(s, c).next, fr, store) && Open(ThenStart(s, c))
    requires Extends(code, ThenEnd(s, c).blocks) && Extends(code, BranchIfOpen(ThenEnd(s, c), |c.blocks| + 2).blocks)
    ensures Runs(code, ThenStart(s, c), fr, GenIf(s, c).0, Exec(s, store), n, k)
    decreases s, 0
  {
    hide StmtOk, Represents, Extends, Open, ThenStart, ThenEnd, EmptyAt, AllBound, Eval, TypeOf, GenExpr, GenIf, Runs;
    hide Exec, ExecBlock, ForgetOutcome, SameOutside, BranchIfOpen, GenBlock, Declared, DeclaredIn;
    ThenParts(s, c, store);
    var o := ExecBlock(s.thn, store);
    n, k := BlockCorrect(code, s.thn, ThenStart(s, c), fr, store);
    IfEnds(s, c, store.Keys);
    if o.Next? {
      n, k := BranchEnds(code, ThenStart(s, c), fr, ThenEnd(s, c), GenIf(s, c).0, DeclaredIn(ElseOf(s.els)), store.Keys,
                         o, n, k);
    } else {
      RunsReturned(code, ThenStart(s, c), fr, ThenEnd(s, c), GenIf(s, c).0, o, n, k);
    }
  }

  /** Once a value has been returned, it does not matter where generation went on. */
  lemma RunsReturned(code: Code, c: Builder, fr: Frame, d: Builder, e: Builder, o: Outcome, n: nat, k: Config)
    requires Runs(code, c, fr, d, o, n, k) && o.Returned?
    ensures Runs(code, c, fr, e, o, n, k)
  {
    hide Run;
  }

  /** What the then branch does, in terms of the whole statement. */
  lemma ThenParts(s: Stmt, c: Builder, store: Store)
    requires s.IfStmt? && StmtOk(s, store.Keys) && AllBound(c.scopes, c.next, store.Keys) && Open(c)
    requires GenExpr(s.cond, c).1.Some? && IfTruth(Eval(s.cond, store))
    ensures BlockOk(s.thn, store.Keys) && ThenEnd(s, c) == GenBlock(s.thn, ThenStart(s, c)).0
    ensures var o := ExecBlock(s.thn, store);
            && (o.Next? ==> store.Keys <= o.store.Keys && Open(ThenEnd(s, c)) && Completed(s.els))
            && Exec(s, store) == ForgetOutcome(o, store.Keys) && (o.Returned? ==> Exec(s, store) == o)
    ensures DeclaredIn(ElseOf(s.els)) !! store.Keys
  {
    hide AllBound, Eval, TypeOf, GenExpr, GenIf, GenBlock, ThenStart, Open;
    AfterAllKeeps(s.thn, store.Keys);
    IfShape(s, c, store.Keys);
  }

  lemma {:induction false} ElseCorrect(code: Code, s: Stmt, c: Builder, fr: Frame, store: Store)
    returns (n: nat, k: Config)
    requires s.IfStmt? && StmtOk(s, store.Keys) && AllBound(c.scopes, c.next, store.Keys) && Open(c)
    requires GenExpr(s.cond, c).1.Some? && !IfTruth(Eval(s.cond, store))
    requires Represents(ElseStart(s, c).scopes, ElseStart(s, c).next, fr, store) && Open(ElseStart(s, c))
    requires Extends(code, ElseEnd(s, c).blocks)
    requires Completed(s.els) ==> Extends(code, BranchIfOpen(ElseEnd(s, c), |c.blocks| + 2).blocks)
    ensures Runs(code, ElseStart(s, c), fr, GenIf(s, c).0, Exec(s, store), n, k)
    decreases s, 0
  {
    hide StmtOk, Represents, Extends, Open, ElseStart, ElseEnd, EmptyAt, AllBound, Eval, TypeOf, GenExpr, GenIf, Runs;
    hide Exec, ExecBlock, ForgetOutcome, SameOutside, BranchIfOpen, GenBlock, Declared, DeclaredIn;
    var ss := ElseOf(s.els);
    ElseParts(s, c, store);
    var o := ExecBlock(ss, store);
    if s.els.Else? {
      n, k := BlockCorrect(code, ss, ElseStart(s, c), fr, store);
    } else {
      n, k := 0, Here(ElseStart(s, c), fr);
      RunsNothing(code, ElseStart(s, c), fr, store);
    }
    IfEnds(s, c, store.Keys);
    if Completed(s.els) {
      SameOutsideSelf(ElseEnd(s, c).scopes, {});
      n, k := BranchEnds(code, ElseStart(s, c), fr, ElseEnd(s, c), GenIf(s, c).0, {}, store.Keys, o, n, k);
    } else {
      BranchFallsThrough(code, ElseStart(s, c), fr, ElseEnd(s, c), store.Keys, o, n, k);
    }
  }

  /** What the else branch does, or a missing one does not do, in terms of the whole statement. */
  lemma ElseParts(s: Stmt, c: Builder, store: Store)
    requires s.IfStmt? && StmtOk(s, store.Keys) && AllBound(c.scopes, c.next, store.Keys) && Open(c)
    requires GenExpr(s.cond, c).1.Some? && !IfTruth(Eval(s.cond, store))
    ensures BlockOk(ElseOf(s.els), store.Keys)
    ensures if s.els.Else? then ElseEnd(s, c) == GenBlock(s.els.stmts, ElseStart(s, c)).0
            else ElseEnd(s, c) == ElseStart(s, c) && ExecBlock(ElseOf(s.els), store) == Next(store)
    ensures var o := ExecBlock(ElseOf(s.els), store);
            && (o.Next? ==> store.Keys <= o.store.Keys && Open(ElseEnd(s, c)))
            && Exec(s, store) == ForgetOutcome(o, store.Keys)
  {
    hide AllBound, Eval, TypeOf, GenExpr, GenIf, GenBlock, ElseStart, Open;
    AfterAllKeeps(ElseOf(s.els), store.Keys);
    IfShape(s, c, store.Keys);
  }

  lemma RunsNothing(code: Code, c: Builder, fr: Frame, store: Store)
    requires Represents(c.scopes, c.next, fr, store)
    ensures Runs(code, c, fr, c, Next(store), 0, Here(c, fr))
  {
    hide Represents;
  }

  /** Statements of a block run one after the other, up to a return. */
  lemma {:induction false} BlockCorrect(code: Code, ss: seq<Stmt>, c: Builder, fr: Frame, store: Store)
    returns (n: nat, k: Config)
    requires BlockOk(ss, store.Keys) && Represents(c.scopes, c.next, fr, store) && Open(c)
    requires Extends(code, GenBlock(ss, c).0.blocks)
    ensures Runs(code, c, fr, GenBlock(ss, c).0, ExecBlock(ss, store), n, k)
    decreases ss, 3
  {
    hide Represents, Extends, Open, GenStmt, Exec, AllBound, StmtOk;
    if ss == [] {
      n, k := 0, Here(c, fr);
    } else {
      var d := GenStmt(ss[0], c).0;
      if |ss| > 1 {
        BlockGrew(ss[1..], d);
        GrewExtends(code, d, GenBlock(ss[1..], d).0, |d.blocks|);
      }
      n, k := StmtCorrect(code, ss[0], c, fr, store);
      var o := Exec(ss[0], store);
      if |ss| > 1 {
        RepresentedBound(c.scopes, c.next, fr, store);
        StmtShape(ss[0], c, store.Keys);
        StmtGrew(ss[0], c);
        if o.Next? {
          var n2, k2 := BlockCorrect(code, ss[1..], d, k.frame, o.store);
          RunsFrom(code, c, fr, n, d, k.frame, GenBlock(ss[1..], d).0, ExecBlock(ss[1..], o.store), n2, k2);
          n, k := n + n2, k2;
        }
      }
    }
  }
}
