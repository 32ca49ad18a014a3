/**
  Generated loops do what loops mean, for any number of rounds: the conditional
  branch, one round of the body, and the two directions of the correspondence
  between a loop that ends and a machine that stops.
*/
module ThlangLoopCorrect {
  import opened Wrappers
  import opened TwosComplement
  import opened ThlangAst
  import opened ThlangSemantics
  import opened ThlangIr
  import opened ThlangCodeGen
  import opened ThlangExprCorrect
  import opened ThlangStructure
  import opened ThlangScopes
  import opened ThlangShape
  import opened ThlangStmtCorrect

  // ----- the test of a loop -----

  lemma LoopBranchExtends(code: Code, c: Builder, o: Operand, body: BlockId, after: BlockId)
    requires Extends(code, EmitLoopBranch(c, o, body, after).blocks)
    ensures Extends(code, EmitLoopCond(c, o).0.blocks)
    ensures Extends(code, c.blocks)
  {
    var (c1, b) := EmitLoopCond(c, o);
    EmitExtends(code, c1, CondBr(b, body, after));
    if TypeOfOperand(o) == I1 {
      EmitExtends(code, c, ICmp(c.next, NE, o, Const(I1, 0)));
    } else {
      var c0 := EmitTemp(c, Trunc(c.next, o));
      EmitExtends(code, c0, ICmp(c0.next, NE, Temp(c.next, I1), Const(I1, 0)));
      EmitExtends(code, c, Trunc(c.next, o));
    }
  }

  /** The parity of a number can be read off its bits. */
  lemma ParityOfBits(n: int)
    ensures (ToBits(n) % 2 == 1) == (n % 2 != 0)
  {
    assert n == MODULUS * (n / MODULUS) + ToBits(n);
    assert n % 2 == ToBits(n) % 2;
  }

  lemma LoopCondRuns(code: Code, c: Builder, o: Operand, v: Value, t: Ty, fr: Frame) returns (n: nat, fr': Frame)
    requires TypeOfOperand(o) == IrType(t) && Encode(v).ty == IrType(t)
    requires OperandValue(o, fr) == Some(Encode(v))
    requires Extends(code, EmitLoopCond(c, o).0.blocks)
    ensures Run(code, Here(c, fr), n) == Here(EmitLoopCond(c, o).0, fr')
    ensures OperandValue(EmitLoopCond(c, o).1, fr') == Some(Bits(I1, if LoopTruth(v) then 1 else 0))
    ensures Keeps(fr, fr', c.next) && fr'.memory == fr.memory
  {
    var bit := if LoopTruth(v) then 1 else 0;
    if t == BoolTy {
      StepAppended(code, c, ICmp(c.next, NE, o, Const(I1, 0)), fr);
      RunOneMore(code, Here(c, fr), 0);
      n, fr' := 1, SetTemp(fr, c.next, Bits(I1, bit));
    } else {
      ParityOfBits(v.n);
      n, fr' := LoopCastRuns(code, c, o, ToBits(v.n), fr);
    }
  }

  lemma LoopCastRuns(code: Code, c: Builder, o: Operand, bits: nat, fr: Frame) returns (n: nat, fr': Frame)
    requires TypeOfOperand(o) == I32 && OperandValue(o, fr) == Some(Bits(I32, bits))
    requires Extends(code, EmitLoopCond(c, o).0.blocks)
    ensures Run(code, Here(c, fr), n) == Here(EmitLoopCond(c, o).0, fr')
    ensures OperandValue(EmitLoopCond(c, o).1, fr') == Some(Bits(I1, bits % 2))
    ensures Keeps(fr, fr', c.next) && fr'.memory == fr.memory
  {
    hide Extends, Keeps, OperandValue, Step, Run, TypeOfOperand;
    var c1, fr1 := EmitTemp(c, Trunc(c.next, o)), SetTemp(fr, c.next, Bits(I1, bits % 2));
    var cmp := ICmp(c1.next, NE, Temp(c.next, I1), Const(I1, 0));
    LoopCastIs(c, o);
    EmitExtends(code, c1, cmp);
    TruncStep(code, c, o, bits, fr);
    NotZeroStep(code, c1, c.next, bits % 2, fr1);
    RunOneMore(code, Here(c, fr), 0);
    RunOneMore(code, Here(c, fr), 1);
    n, fr' := 2, SetTemp(fr1, c1.next, Bits(I1, bits % 2));
    NoSteps(code, Here(c, fr));
    HeldByTemp(fr1, c1.next, Bits(I1, bits % 2));
    SetTempKeeps(fr, c.next, Bits(I1, bits % 2));
    SetTempKeeps(fr1, c1.next, Bits(I1, bits % 2));
    KeepsTransitive(fr, fr1, fr', c.next, c1.next);
  }

  lemma LoopCastIs(c: Builder, o: Operand)
    requires TypeOfOperand(o) == I32
    ensures var c1 := EmitTemp(c, Trunc(c.next, o));
            && c1.next == c.next + 1
            && EmitLoopCond(c, o).0 == EmitTemp(c1, ICmp(c1.next, NE, Temp(c.next, I1), Const(I1, 0)))
            && EmitLoopCond(c, o).1 == Temp(c1.next, I1)
  {
    hide Emit;
  }

  lemma NoSteps(code: Code, k: Config)
    ensures Run(code, k, 0) == k
  {
  }

  lemma TruncStep(code: Code, c: Builder, o: Operand, bits: nat, fr: Frame)
    requires Extends(code, EmitTemp(c, Trunc(c.next, o)).blocks) && OperandValue(o, fr) == Some(Bits(I32, bits))
    ensures Step(code, Here(c, fr))
         == Here(EmitTemp(c, Trunc(c.next, o)), SetTemp(fr, c.next, Bits(I1, bits % 2)))
  {
    hide Extends;
    StepAppended(code, c, Trunc(c.next, o), fr);
  }

  lemma NotZeroStep(code: Code, c: Builder, id: nat, bit: nat, fr: Frame)
    requires bit < 2 && id in fr.temps && fr.temps[id] == Bits(I1, bit)
    requires Extends(code, EmitTemp(c, ICmp(c.next, NE, Temp(id, I1), Const(I1, 0))).blocks)
    ensures Step(code, Here(c, fr))
         == Here(EmitTemp(c, ICmp(c.next, NE, Temp(id, I1), Const(I1, 0))), SetTemp(fr, c.next, Bits(I1, bit)))
  {
    hide Extends;
    StepAppended(code, c, ICmp(c.next, NE, Temp(id, I1), Const(I1, 0)), fr);
  }

  /** Where the test of a loop leads. */
  function Target(holds: bool, body: BlockId, after: BlockId): BlockId {
    if holds then body else after
  }

  lemma TestRuns(code: Code, cond: Expr, c: Builder, body: BlockId, after: BlockId, fr: Frame, s: Store)
    returns (n: nat, fr': Frame)
    requires TypeOf(cond, s.Keys).Some? && Represents(c.scopes, c.next, fr, s)
    requires GenExpr(cond, c).1.Some?
    requires Extends(code, EmitLoopBranch(GenExpr(cond, c).0, GenExpr(cond, c).1.value, body, after).blocks)
    ensures n > 0 && Run(code, Here(c, fr), n) == Running(Target(Holds(cond, s), body, after), 0, fr')
    ensures Represents(c.scopes, c.next, fr', s) && Keeps(fr, fr', c.next)
  {
    hide Extends, Represents, EmitLoopCond, Encode, Eval, TypeOf, Step, Run;
    var (c1, o) := GenExpr(cond, c);
    LoopBranchExtends(code, c1, o.value, body, after);
    var n1, fr1 := ExprCorrect(code, cond, c, fr, s);
    EncodedType(cond, s);
    var n2, fr2 := LoopCondRuns(code, c1, o.value, Eval(cond, s), TypeOf(cond, s.Keys).value, fr1);
    var (c2, b) := EmitLoopCond(c1, o.value);
    StepAppended(code, c2, CondBr(b, body, after), fr2);
    RunsOn(code, Here(c, fr), n1, Here(c1, fr1), n2, Here(c2, fr2));
    RunOneMore(code, Here(c, fr), n1 + n2);
    KeepsTransitive(fr, fr1, fr2, c.next, c1.next);
    RepresentsKept(c.scopes, c.next, fr, s, fr2, c.next);
    n, fr' := n1 + n2 + 1, fr2;
  }

  // ----- bodies and parts -----

  /** The slots bound at n are below n, however far generation has come. */
  lemma RepresentsBelow(scopes: seq<Scope>, n: nat, m: nat, fr: Frame, s: Store)
    requires Represents(scopes, m, fr, s) && AllBound(scopes, n, s.Keys)
    ensures Represents(scopes, n, fr, s)
  {
    forall x | x in s
      ensures Held(scopes, n, fr, s, x)
    {
      assert Held(scopes, m, fr, s, x);
    }
  }

  lemma RepresentsInner(scopes: seq<Scope>, n: nat, m: nat, fr: Frame, s: Store)
    requires Represents(scopes, n, fr, s) && n <= m
    ensures Represents(scopes + [map[]], m, fr, s)
  {
    forall x | x in s
      ensures CellOf(scopes + [map[]], fr, x) == CellOf(scopes, fr, x) && Held(scopes + [map[]], m, fr, s, x)
    {
      assert Held(scopes, n, fr, s, x);
      EmptyScopeLookup(scopes, x);
    }
  }

  lemma RepresentsOuter(scopes: seq<Scope>, n: nat, inner: seq<Scope>, m: nat, changed: set<string>, fr: Frame,
                        s: Store, names: set<string>)
    requires SameOutside(scopes + [map[]], inner, changed) && changed !! names && names <= s.Keys
    requires Represents(inner, m, fr, s) && AllBound(scopes, n, names)
    ensures Represents(scopes, n, fr, Forget(s, names))
  {
    forall x | x in names
      ensures CellOf(scopes, fr, x) == CellOf(inner, fr, x) && Held(scopes, n, fr, Forget(s, names), x)
    {
      assert Held(inner, m, fr, s, x);
      SameLookup(scopes + [map[]], inner, changed, x);
      EmptyScopeLookup(scopes, x);
    }
  }

  /** A body generated in a scope of its own, run once. */
  lemma BodyRuns(code: Code, body: seq<Stmt>, c: Builder, scopes: seq<Scope>, next: nat, fr: Frame, s: Store)
    returns (n: nat, fr': Frame)
    requires LoopBodyOk(body, s.Keys) && Represents(scopes, next, fr, s) && AllBound(scopes, next, s.Keys)
    requires c.scopes == scopes + [map[]] && next <= c.next && Open(c)
    requires Extends(code, GenBlock(body, c).0.blocks)
    ensures Run(code, Here(c, fr), n) == Here(GenBlock(body, c).0, fr')
    ensures Represents(scopes, next, fr', ExecBody(body, s))
    ensures Open(GenBlock(body, c).0)
  {
    hide Represents, Extends, Open;
    RepresentsInner(scopes, next, c.next, fr, s);
    var k;
    n, k := BlockCorrect(code, body, c, fr, s);
    fr' := k.frame;
    RepresentedBound(c.scopes, c.next, fr, s);
    NoReturnsAtEnd(body);
    BlockShape(body, c, s.Keys);
    BlockScopes(body, c);
    AfterAllKeeps(body, s.Keys);
    RepresentsOuter(scopes, next, GenBlock(body, c).0.scopes, GenBlock(body, c).0.next, DeclaredIn(body), fr',
                    ExecBlock(body, s).store, s.Keys);
  }

  lemma NoReturnsAtEnd(ss: seq<Stmt>)
    requires NoReturns(ss)
    ensures !EndsInReturn(ss)
  {
    if |ss| > 1 {
      NoReturnsAtEnd(ss[1..]);
    }
  }

  lemma PartRuns(code: Code, e: Option<Expr>, c: Builder, fr: Frame, s: Store) returns (n: nat, fr': Frame)
    requires PartOk(e, s.Keys) && Represents(c.scopes, c.next, fr, s)
    requires Extends(code, (if e.None? then c else GenExpr(e.value, c).0).blocks)
    ensures Run(code, Here(c, fr), n) == Here(if e.None? then c else GenExpr(e.value, c).0, fr')
    ensures Represents(c.scopes, (if e.None? then c else GenExpr(e.value, c).0).next, fr', ExecPart(e, s))
  {
    if e.None? {
      n, fr' := 0, fr;
    } else {
      n, fr' := ExprStmtCorrect(code, e.value, c, fr, s);
    }
  }

  /** A jump that was just appended. */
  lemma BrRuns(code: Code, c: Builder, b: BlockId, fr: Frame)
    requires Extends(code, Emit(c, Br(b)).blocks)
    ensures Step(code, Here(c, fr)) == Running(b, 0, fr)
  {
    StepAppended(code, c, Br(b), fr);
  }

  // ----- while: its stages -----

  function WhileBody(s: Stmt, c: Builder): (r: Builder)
    requires s.WhileStmt? && GenExpr(s.cond, WhileHead(c)).1.Some?
    ensures r.scopes == c.scopes + [map[]] && |r.blocks| == |c.blocks| + 2 && r.cur == |c.blocks|
  {
    var (c1, o) := GenExpr(s.cond, WhileHead(c));
    LoopEntry(c1, o.value, |c.blocks|, |c.blocks| + 1)
  }

  function WhileBodyEnd(s: Stmt, c: Builder): (r: Builder)
    requires s.WhileStmt? && GenExpr(s.cond, WhileHead(c)).1.Some?
    ensures |r.scopes| == |c.scopes| + 1 && |c.blocks| + 2 <= |r.blocks|
  {
    GenBlock(s.body, WhileBody(s, c)).0
  }

  function WhileRetest(s: Stmt, c: Builder): (r: Builder)
    requires s.WhileStmt? && GenExpr(s.cond, WhileHead(c)).1.Some?
    ensures |c.blocks| + 2 <= |r.blocks|
  {
    PopBlock(WhileBodyEnd(s, c))
  }

  lemma WhileHeadFacts(c: Builder)
    ensures EmptyAt(WhileHead(c), |c.blocks|) && EmptyAt(WhileHead(c), |c.blocks| + 1)
    ensures WhileHead(c).next == c.next
    ensures forall fr :: Here(WhileHead(c), fr) == Here(c, fr)
  {
  }

  lemma LoopEntryEmpty(c: Builder, o: Operand, body: BlockId, after: BlockId, b: BlockId)
    requires body < |c.blocks| && EmptyAt(c, b) && c.cur != b
    ensures EmptyAt(LoopEntry(c, o, body, after), b)
    ensures EmptyAt(EmitLoopBranch(c, o, body, after), b) && EmitLoopBranch(c, o, body, after).cur == c.cur
    ensures c.next <= LoopEntry(c, o, body, after).next
  {
  }

  lemma ExprKeepsEmpty(e: Expr, c: Builder, b: BlockId)
    requires EmptyAt(c, b) && c.cur != b
    ensures EmptyAt(GenExpr(e, c).0, b)
  {
    hide GenExpr;
  }

  /** Where a while finds its scopes and its blocks. */
  lemma WhileStages(s: Stmt, c: Builder, names: set<string>)
    requires s.WhileStmt? && AllBound(c.scopes, c.next, names) && TypeOf(s.cond, names).Some?
    ensures GenExpr(s.cond, WhileHead(c)).1.Some?
    ensures Open(WhileBody(s, c)) && EmptyAt(WhileBody(s, c), |c.blocks|) && c.next <= WhileBody(s, c).next
    ensures EmptyAt(WhileRetest(s, c), |c.blocks| + 1) && WhileRetest(s, c).cur != |c.blocks| + 1
    ensures WhileRetest(s, c).scopes == c.scopes && c.next <= WhileRetest(s, c).next
    ensures GenExpr(s.cond, WhileRetest(s, c)).1.Some?
  {
    hide GenExpr, GenBlock, EmptyAt, Open, LoopEntry, WhileHead, AllBound, TypeOf;
    WhileHeadFacts(c);
    ExprGenerated(s.cond, WhileHead(c), names);
    WhileBodyEmpty(s, c);
    WhileRetestFacts(s, c);
    AllBoundNext(c.scopes, c.next, WhileRetest(s, c).next, names);
    ExprGenerated(s.cond, WhileRetest(s, c), names);
  }

  lemma AllBoundNext(scopes: seq<Scope>, n: nat, m: nat, names: set<string>)
    requires AllBound(scopes, n, names) && n <= m
    ensures AllBound(scopes, m, names)
  {
  }

  lemma EmptyOpen(c: Builder)
    requires EmptyAt(c, c.cur)
    ensures Open(c)
  {
  }

  lemma WhileBodyEmpty(s: Stmt, c: Builder)
    requires s.WhileStmt? && GenExpr(s.cond, WhileHead(c)).1.Some?
    ensures EmptyAt(WhileBody(s, c), |c.blocks|) && EmptyAt(WhileBody(s, c), |c.blocks| + 1)
    ensures Open(WhileBody(s, c)) && c.next <= WhileBody(s, c).next
  {
    hide GenExpr, EmptyAt, Open, LoopEntry, WhileHead;
    var L := |c.blocks|;
    WhileHeadFacts(c);
    var (c1, o) := GenExpr(s.cond, WhileHead(c));
    ExprKeepsEmpty(s.cond, WhileHead(c), L);
    ExprKeepsEmpty(s.cond, WhileHead(c), L + 1);
    LoopEntryEmpty(c1, o.value, L, L + 1, L);
    LoopEntryEmpty(c1, o.value, L, L + 1, L + 1);
    EmptyOpen(WhileBody(s, c));
  }

  lemma WhileRetestFacts(s: Stmt, c: Builder)
    requires s.WhileStmt? && GenExpr(s.cond, WhileHead(c)).1.Some?
    requires EmptyAt(WhileBody(s, c), |c.blocks| + 1)
    ensures EmptyAt(WhileRetest(s, c), |c.blocks| + 1) && WhileRetest(s, c).cur != |c.blocks| + 1
    ensures WhileRetest(s, c).scopes == c.scopes && WhileBody(s, c).next <= WhileRetest(s, c).next
  {
    BlockKeepsEmpty(s.body, WhileBody(s, c), |c.blocks| + 1);
    BlockScopes(s.body, WhileBody(s, c));
    BlockGrew(s.body, WhileBody(s, c));
    hide GenBlock, WhileBody, GenExpr, SameOutside;
    PoppedScopes(c.scopes, WhileBodyEnd(s, c).scopes, DeclaredIn(s.body));
  }

  /** The final code contains every stage of the while, and ends it with a return. */
  lemma WhileExtends(code: Code, s: Stmt, c: Builder, names: set<string>)
    requires s.WhileStmt? && AllBound(c.scopes, c.next, names) && TypeOf(s.cond, names).Some?
    requires Extends(code, GenWhile(s, c).0.blocks)
    ensures GenExpr(s.cond, WhileHead(c)).1.Some? && GenExpr(s.cond, WhileRetest(s, c)).1.Some?
    ensures var (c1, o) := GenExpr(s.cond, WhileHead(c));
            Extends(code, EmitLoopBranch(c1, o.value, |c.blocks|, |c.blocks| + 1).blocks)
    ensures Extends(code, WhileBodyEnd(s, c).blocks)
    ensures var (c5, o2) := GenExpr(s.cond, WhileRetest(s, c));
            Extends(code, EmitLoopBranch(c5, o2.value, |c.blocks|, |c.blocks| + 1).blocks)
    ensures |c.blocks| + 1 < |code| && [RetVoid] <= code[|c.blocks| + 1]
  {
    hide GenExpr, GenBlock, EmptyAt, Open, LoopEntry, WhileHead, AllBound, TypeOf, WhileBody, WhileBodyEnd, WhileRetest;
    hide Extends, EmitLoopBranch, GrewFrom;
    WhileStages(s, c, names);
    var (c5, o2) := GenExpr(s.cond, WhileRetest(s, c));
    assert GenWhile(s, c).0 == WhileEnd(c5, o2.value, |c.blocks|) by { WhileUnfold(s, c); }
    ExprKeepsEmpty(s.cond, WhileRetest(s, c), |c.blocks| + 1);
    WhileEndExtends(code, c5, o2.value, |c.blocks|);
    LoopBranchExtends(code, c5, o2.value, |c.blocks|, |c.blocks| + 1);
    ExprExtends(code, s.cond, WhileRetest(s, c));
    assert WhileRetest(s, c).blocks == WhileBodyEnd(s, c).blocks by { RetestBlocks(s, c); }
    WhileBodyExtends(code, s, c);
  }

  lemma RetestBlocks(s: Stmt, c: Builder)
    requires s.WhileStmt? && GenExpr(s.cond, WhileHead(c)).1.Some?
    ensures WhileRetest(s, c).blocks == WhileBodyEnd(s, c).blocks
  {
  }

  lemma WhileUnfold(s: Stmt, c: Builder)
    requires s.WhileStmt? && GenExpr(s.cond, WhileHead(c)).1.Some? && GenExpr(s.cond, WhileRetest(s, c)).1.Some?
    ensures GenWhile(s, c).0 ==
              WhileEnd(GenExpr(s.cond, WhileRetest(s, c)).0, GenExpr(s.cond, WhileRetest(s, c)).1.value, |c.blocks|)
  {
    hide GenExpr, GenBlock, LoopEntry, WhileHead, WhileEnd;
  }

  lemma WhileEndExtends(code: Code, c: Builder, o: Operand, L: BlockId)
    requires EmptyAt(c, L + 1) && c.cur != L + 1
    requires Extends(code, WhileEnd(c, o, L).blocks)
    ensures Extends(code, EmitLoopBranch(c, o, L, L + 1).blocks)
    ensures L + 1 < |code| && [RetVoid] <= code[L + 1]
  {
    var d := EmitLoopBranch(c, o, L, L + 1);
    LoopEntryEmptyBranch(c, o, L, L + 1, L + 1);
    hide EmitLoopBranch;
    ExitExtends(code, InsertInto(d, L + 1), L + 1);
  }

  /** An empty exit block receives its return, and nothing else changes. */
  lemma ExitExtends(code: Code, c: Builder, after: BlockId)
    requires EmptyAt(c, after) && Extends(code, LoopExit(c, after).blocks)
    ensures Extends(code, c.blocks)
    ensures after < |code| && [RetVoid] <= code[after]
  {
    var w := LoopExit(c, after);
    assert [] + [RetVoid] == [RetVoid];
    assert w.blocks == c.blocks[after := [RetVoid]];
    forall b | 0 <= b < |c.blocks|
      ensures c.blocks[b] <= code[b]
    {
      assert c.blocks[b] <= w.blocks[b] <= code[b];
    }
    assert w.blocks[after] <= code[after];
  }

  lemma LoopEntryEmptyBranch(c: Builder, o: Operand, body: BlockId, after: BlockId, b: BlockId)
    requires EmptyAt(c, b) && c.cur != b
    ensures EmptyAt(EmitLoopBranch(c, o, body, after), b)
  {
  }

  lemma WhileBodyExtends(code: Code, s: Stmt, c: Builder)
    requires s.WhileStmt? && GenExpr(s.cond, WhileHead(c)).1.Some?
    requires Extends(code, WhileBodyEnd(s, c).blocks)
    ensures var (c1, o) := GenExpr(s.cond, WhileHead(c));
            Extends(code, EmitLoopBranch(c1, o.value, |c.blocks|, |c.blocks| + 1).blocks)
  {
    BlockGrew(s.body, WhileBody(s, c));
    var (c1, o) := GenExpr(s.cond, WhileHead(c));
    assert WhileBody(s, c).blocks == EmitLoopBranch(c1, o.value, |c.blocks|, |c.blocks| + 1).blocks;
    hide GenBlock, GenExpr, WhileHead, WhileBody, EmitLoopBranch, GrewFrom, Extends;
    GrewExtends(code, WhileBody(s, c), WhileBodyEnd(s, c), |WhileBody(s, c).blocks|);
  }

  // ----- the loop as a whole -----

  function BodyBlock(s: Stmt, c: Builder): BlockId {
    if s.ForStmt? then |c.blocks| + 2 else |c.blocks|
  }

  function ExitBlock(s: Stmt, c: Builder): BlockId {
    if s.ForStmt? then |c.blocks| + 4 else |c.blocks| + 1
  }

  /** At the body or at the exit, whichever the condition says. */
  function Decided(s: Stmt, c: Builder, store: Store, fr: Frame): Config
    requires (s.WhileStmt? || s.ForStmt?) && TypeOf(s.cond, store.Keys).Some?
  {
    Running(Target(Holds(s.cond, store), BodyBlock(s, c), ExitBlock(s, c)), 0, fr)
  }

  /** Entering a while. */
  lemma WhileEnters(code: Code, s: Stmt, c: Builder, fr: Frame, store: Store) returns (n: nat, fr': Frame)
    requires s.WhileStmt? && LoopOk(s, store.Keys) && Represents(c.scopes, c.next, fr, store)
    requires Extends(code, GenWhile(s, c).0.blocks)
    ensures Run(code, Here(c, fr), n) == Decided(s, c, store, fr')
    ensures Represents(c.scopes, c.next, fr', store) && Keeps(fr, fr', c.next)
  {
    hide Extends, GenExpr, GenWhile, Represents, WhileHead, EmitLoopBranch, AllBound, WhileRetest, WhileBodyEnd;
    RepresentedBound(c.scopes, c.next, fr, store);
    WhileExtends(code, s, c, store.Keys);
    WhileHeadFacts(c);
    assert Here(WhileHead(c), fr) == Here(c, fr);
    n, fr' := TestRuns(code, s.cond, WhileHead(c), |c.blocks|, |c.blocks| + 1, fr, store);
  }

  /** One round of a while: the body, then the second copy of the condition. */
  lemma WhileRound(code: Code, s: Stmt, c: Builder, fr: Frame, store: Store) returns (n: nat, fr': Frame)
    requires s.WhileStmt? && LoopOk(s, store.Keys) && Represents(c.scopes, c.next, fr, store)
    requires Extends(code, GenWhile(s, c).0.blocks)
    ensures n > 0 && Run(code, Running(BodyBlock(s, c), 0, fr), n) == Decided(s, c, ExecRound(s, store), fr')
    ensures Represents(c.scopes, c.next, fr', ExecRound(s, store))
  {
    hide Extends, GenExpr, GenWhile, Represents, WhileHead, EmitLoopBranch, AllBound, WhileRetest, WhileBodyEnd;
    hide WhileBody, EmptyAt, Open, GenBlock;
    RepresentedBound(c.scopes, c.next, fr, store);
    WhileStages(s, c, store.Keys);
    WhileExtends(code, s, c, store.Keys);
    assert Here(WhileBody(s, c), fr) == Running(BodyBlock(s, c), 0, fr) by { EmptyHere(WhileBody(s, c), fr); }
    assert WhileBodyEnd(s, c) == GenBlock(s.body, WhileBody(s, c)).0 by { BodyEndUnfold(s, c); }
    var n1, fr1 := BodyRuns(code, s.body, WhileBody(s, c), c.scopes, c.next, fr, store);
    var d, store1 := WhileRetest(s, c), ExecBody(s.body, store);
    assert Here(d, fr1) == Here(WhileBodyEnd(s, c), fr1) by { RetestHere(s, c, fr1); }
    RepresentsAbove(c.scopes, c.next, d.next, fr1, store1);
    var n2, fr2 := TestRuns(code, s.cond, d, |c.blocks|, |c.blocks| + 1, fr1, store1);
    RunsOn(code, Running(BodyBlock(s, c), 0, fr), n1, Here(d, fr1), n2, Decided(s, c, store1, fr2));
    RepresentsBelow(c.scopes, c.next, d.next, fr2, store1);
    n, fr' := n1 + n2, fr2;
  }

  lemma EmptyHere(c: Builder, fr: Frame)
    requires EmptyAt(c, c.cur)
    ensures Here(c, fr) == Running(c.cur, 0, fr)
  {
  }

  lemma BodyEndUnfold(s: Stmt, c: Builder)
    requires s.WhileStmt? && GenExpr(s.cond, WhileHead(c)).1.Some?
    ensures WhileBodyEnd(s, c) == GenBlock(s.body, WhileBody(s, c)).0
  {
  }

  lemma RetestHere(s: Stmt, c: Builder, fr: Frame)
    requires s.WhileStmt? && GenExpr(s.cond, WhileHead(c)).1.Some?
    ensures Here(WhileRetest(s, c), fr) == Here(WhileBodyEnd(s, c), fr)
  {
  }

  lemma RepresentsAbove(scopes: seq<Scope>, n: nat, m: nat, fr: Frame, s: Store)
    requires Represents(scopes, n, fr, s) && n <= m
    ensures Represents(scopes, m, fr, s)
  {
    RepresentsKept(scopes, n, fr, s, fr, m);
  }

  // ----- for: its stages -----

  function ForBody(s: Stmt, c: Builder): (r: Builder)
    requires s.ForStmt? && GenExpr(s.cond, ForInit(s.start, c)).1.Some?
    ensures r.scopes == c.scopes + [map[]] && |r.blocks| == |c.blocks| + 5 && r.cur == |c.blocks| + 2
  {
    var (c1, o) := GenExpr(s.cond, ForInit(s.start, c));
    LoopEntry(c1, o.value, |c.blocks| + 2, |c.blocks| + 4)
  }

  function ForBodyEnd(s: Stmt, c: Builder): (r: Builder)
    requires s.ForStmt? && GenExpr(s.cond, ForInit(s.start, c)).1.Some?
    ensures |r.scopes| == |c.scopes| + 1 && |c.blocks| + 5 <= |r.blocks|
  {
    GenBlock(s.body, ForBody(s, c)).0
  }

  function ForIter(s: Stmt, c: Builder): (r: Builder)
    requires s.ForStmt? && GenExpr(s.cond, ForInit(s.start, c)).1.Some?
    ensures |c.blocks| + 5 <= |r.blocks| && r.cur == |c.blocks| + 3
  {
    ForStep(ForBodyEnd(s, c), |c.blocks|)
  }

  function ForIterEnd(s: Stmt, c: Builder): (r: Builder)
    requires s.ForStmt? && GenExpr(s.cond, ForInit(s.start, c)).1.Some?
    ensures |c.blocks| + 5 <= |r.blocks| && r.cur == |c.blocks| + 3
  {
    if s.increment.None? then ForIter(s, c) else GenExpr(s.increment.value, ForIter(s, c)).0
  }

  lemma PartKeepsEmpty(e: Option<Expr>, c: Builder, b: BlockId)
    requires EmptyAt(c, b) && c.cur != b
    ensures EmptyAt(if e.None? then c else GenExpr(e.value, c).0, b)
  {
    if e.Some? {
      ExprKeepsEmpty(e.value, c, b);
    }
  }

  /** After the first part, the blocks of the for that are still to come are empty. */
  function ForPart(c: Builder): (r: Builder)
    ensures r.scopes == c.scopes && r.cur == |c.blocks| && |r.blocks| == |c.blocks| + 5
  {
    SetInsertPoint(Emit(ForBlocks(c), Br(|c.blocks|)), |c.blocks|)
  }

  function ForPartEnd(start: Option<Expr>, c: Builder): (r: Builder)
    ensures r.scopes == c.scopes && r.cur == |c.blocks| && |r.blocks| == |c.blocks| + 5
  {
    if start.None? then ForPart(c) else GenExpr(start.value, ForPart(c)).0
  }

  lemma ForInitFacts(start: Option<Expr>, c: Builder, k: nat)
    requires 1 <= k <= 4
    ensures EmptyAt(ForInit(start, c), |c.blocks| + k)
    ensures c.next <= ForInit(start, c).next
  {
    hide ForBlocks, GenExpr, EmptyAt;
    var n := |c.blocks|;
    ForPartEmpty(c, k);
    PartKeepsEmpty(start, ForPart(c), n + k);
    ForInitKeepsEmpty(start, c, k);
  }

  lemma ForPartEmpty(c: Builder, k: nat)
    requires 1 <= k <= 4
    ensures EmptyAt(ForPart(c), |c.blocks| + k) && ForPart(c).next == c.next
  {
    assert ForBlocks(c).blocks == c.blocks + [[], [], [], [], []];
  }

  lemma ForInitKeepsEmpty(start: Option<Expr>, c: Builder, k: nat)
    requires 1 <= k <= 4 && EmptyAt(ForPartEnd(start, c), |c.blocks| + k)
    ensures EmptyAt(ForInit(start, c), |c.blocks| + k) && ForPart(c).next <= ForInit(start, c).next
  {
    hide ForBlocks, GenExpr;
  }

  lemma ForBodyEmpty(s: Stmt, c: Builder, k: nat)
    requires s.ForStmt? && GenExpr(s.cond, ForInit(s.start, c)).1.Some? && 2 <= k <= 4
    ensures EmptyAt(ForBody(s, c), |c.blocks| + k)
    ensures c.next <= ForInit(s.start, c).next <= ForBody(s, c).next
  {
    hide GenExpr, EmptyAt, LoopEntry, ForInit;
    ForInitFacts(s.start, c, k);
    var (c1, o) := GenExpr(s.cond, ForInit(s.start, c));
    ExprKeepsEmpty(s.cond, ForInit(s.start, c), |c.blocks| + k);
    LoopEntryEmpty(c1, o.value, |c.blocks| + 2, |c.blocks| + 4, |c.blocks| + k);
  }

  /** A straight-line body ends in the block it started in. */
  lemma {:induction false} StraightLineCur(ss: seq<Stmt>, c: Builder)
    requires StraightLine(ss)
    ensures GenBlock(ss, c).0.cur == c.cur
    decreases |ss|
  {
    if |ss| > 0 {
      StraightLineStmtCur(ss[0], c);
      if |ss| > 1 {
        StraightLineCur(ss[1..], GenStmt(ss[0], c).0);
      }
    }
  }

  lemma StraightLineStmtCur(s: Stmt, c: Builder)
    requires s.ExprStmt? || s.VarStmt?
    ensures GenStmt(s, c).0.cur == c.cur
  {
  }

  lemma ForIterFacts(s: Stmt, c: Builder)
    requires s.ForStmt? && GenExpr(s.cond, ForInit(s.start, c)).1.Some? && StraightLine(s.body)
    requires Open(ForBodyEnd(s, c))
    ensures ForBodyEnd(s, c).cur == |c.blocks| + 2
    ensures EmptyAt(ForIter(s, c), |c.blocks| + 3) && EmptyAt(ForIter(s, c), |c.blocks| + 4)
    ensures ForIter(s, c).scopes == c.scopes && ForBody(s, c).next <= ForIter(s, c).next
    ensures ForIter(s, c).blocks == Emit(ForBodyEnd(s, c), Br(|c.blocks| + 3)).blocks
  {
    hide GenBlock, GenExpr, ForBody, ForBodyEnd, SameOutside, GrewFrom, ForInit, EmptyAt, Open, StraightLine, ForStep;
    var n := |c.blocks|;
    ForBodyEmpty(s, c, 3);
    ForBodyEmpty(s, c, 4);
    ForBodyEndUnfold(s, c);
    BlockKeepsEmpty(s.body, ForBody(s, c), n + 3);
    BlockKeepsEmpty(s.body, ForBody(s, c), n + 4);
    BlockScopes(s.body, ForBody(s, c));
    BlockNext(s.body, ForBody(s, c));
    StraightLineCur(s.body, ForBody(s, c));
    PoppedScopes(c.scopes, ForBodyEnd(s, c).scopes, DeclaredIn(s.body));
    ForStepFacts(ForBodyEnd(s, c), n);
  }

  lemma ForBodyEndUnfold(s: Stmt, c: Builder)
    requires s.ForStmt? && GenExpr(s.cond, ForInit(s.start, c)).1.Some?
    ensures ForBodyEnd(s, c) == GenBlock(s.body, ForBody(s, c)).0
  {
  }

  lemma BlockNext(ss: seq<Stmt>, c: Builder)
    ensures c.next <= GenBlock(ss, c).0.next
  {
    BlockGrew(ss, c);
  }

  lemma ForStepFacts(c: Builder, n: BlockId)
    requires n + 4 < |c.blocks| && |c.scopes| > 1 && c.cur == n + 2 && Open(c)
    requires EmptyAt(c, n + 3) && EmptyAt(c, n + 4)
    ensures EmptyAt(ForStep(c, n), n + 3) && EmptyAt(ForStep(c, n), n + 4)
    ensures ForStep(c, n).blocks == Emit(c, Br(n + 3)).blocks && ForStep(c, n).next == c.next
  {
  }

  /** Where a for finds its scopes and its blocks. */
  lemma ForStages(s: Stmt, c: Builder, names: set<string>)
    requires s.ForStmt? && AllBound(c.scopes, c.next, names) && ForOk(s.start, s.cond, s.increment, s.body, names)
    ensures GenExpr(s.cond, ForInit(s.start, c)).1.Some?
    ensures Open(ForBody(s, c)) && EmptyAt(ForBody(s, c), |c.blocks| + 2) && c.next <= ForBody(s, c).next
    ensures Open(ForBodyEnd(s, c)) && ForBodyEnd(s, c).cur == |c.blocks| + 2
    ensures c.next <= ForInit(s.start, c).next
    ensures EmptyAt(ForInit(s.start, c), |c.blocks| + 1)
    ensures EmptyAt(ForIter(s, c), |c.blocks| + 3) && EmptyAt(ForIter(s, c), |c.blocks| + 4)
    ensures ForIter(s, c).scopes == c.scopes && c.next <= ForIter(s, c).next
    ensures ForIter(s, c).blocks == Emit(ForBodyEnd(s, c), Br(|c.blocks| + 3)).blocks
  {
    assert TypeOf(s.cond, names).Some? && BlockOk(s.body, names) && NoReturns(s.body) && StraightLine(s.body);
    hide GenExpr, GenBlock, EmptyAt, Open, ForInit, AllBound, TypeOf, ForBody, BlockOk, ForIter;
    ForInitFacts(s.start, c, 1);
    AllBoundNext(c.scopes, c.next, ForInit(s.start, c).next, names);
    ExprGenerated(s.cond, ForInit(s.start, c), names);
    ForBodyEmpty(s, c, 2);
    EmptyOpen(ForBody(s, c));
    AllBoundInner(c.scopes, c.next, ForBody(s, c).next, names);
    BlockShape(s.body, ForBody(s, c), names);
    NoReturnsAtEnd(s.body);
    ForIterFacts(s, c);
  }

  lemma AllBoundInner(scopes: seq<Scope>, n: nat, m: nat, names: set<string>)
    requires AllBound(scopes, n, names) && n <= m
    ensures AllBound(scopes + [map[]], m, names)
  {
    forall x | x in names
      ensures GetValue(scopes + [map[]], x) == GetValue(scopes, x)
    {
      EmptyScopeLookup(scopes, x);
    }
  }

  lemma ForUnfold(s: Stmt, c: Builder)
    requires s.ForStmt? && GenExpr(s.cond, ForInit(s.start, c)).1.Some?
    ensures GenFor(s, c).0 == LoopExit(Emit(ForIterEnd(s, c), Br(|c.blocks| + 1)), |c.blocks| + 4)
  {
    hide GenExpr, GenBlock, GenFor, LoopExit, Emit, ForInit, ForStep, ForEnd, ForBodyEnd;
    ForUnfoldEnd(s, c);
    ForEndIs(s.increment, ForBodyEnd(s, c), |c.blocks|);
  }

  lemma ForUnfoldEnd(s: Stmt, c: Builder)
    requires s.ForStmt? && GenExpr(s.cond, ForInit(s.start, c)).1.Some?
    ensures GenFor(s, c).0 == ForEnd(s.increment, ForBodyEnd(s, c), |c.blocks|)
  {
    hide GenExpr, GenBlock, ForEnd, ForInit, LoopEntry;
  }

  lemma ForEndIs(increment: Option<Expr>, c: Builder, first: BlockId)
    requires first + 4 < |c.blocks| && |c.scopes| > 1
    ensures ForEnd(increment, c, first)
         == LoopExit(Emit(if increment.None? then ForStep(c, first) else GenExpr(increment.value, ForStep(c, first)).0,
                          Br(first + 1)), first + 4)
  {
    hide GenExpr, LoopExit, Emit, ForStep;
  }

  /** The final code contains every stage of the for, and ends it with a return. */
  lemma ForExtends(code: Code, s: Stmt, c: Builder, names: set<string>)
    requires s.ForStmt? && AllBound(c.scopes, c.next, names) && ForOk(s.start, s.cond, s.increment, s.body, names)
    requires Extends(code, GenFor(s, c).0.blocks)
    ensures GenExpr(s.cond, ForInit(s.start, c)).1.Some?
    ensures Extends(code, ForInit(s.start, c).blocks)
    ensures Extends(code,
                    EmitLoopBranch(GenExpr(s.cond, ForInit(s.start, c)).0, GenExpr(s.cond, ForInit(s.start, c)).1.value,
                                         |c.blocks| + 2, |c.blocks| + 4).blocks)
    ensures Extends(code, ForBodyEnd(s, c).blocks) && Extends(code, ForIter(s, c).blocks)
    ensures Extends(code, Emit(ForIterEnd(s, c), Br(|c.blocks| + 1)).blocks) && Extends(code, ForIterEnd(s, c).blocks)
    ensures |c.blocks| + 4 < |code| && [RetVoid] <= code[|c.blocks| + 4]
  {
    hide GenExpr, GenBlock, EmptyAt, Open, ForInit, AllBound, TypeOf, ForBody, BlockOk, ForIter, Extends, ForBodyEnd;
    hide GenFor, ForOk, EmitLoopBranch, LoopExit, ForStep;
    ForStages(s, c, names);
    ForUnfold(s, c);
    PartKeepsEmpty(s.increment, ForIter(s, c), |c.blocks| + 4);
    EmitKeepsEmpty(ForIterEnd(s, c), Br(|c.blocks| + 1), |c.blocks| + 4);
    ExitExtends(code, Emit(ForIterEnd(s, c), Br(|c.blocks| + 1)), |c.blocks| + 4);
    EmitExtends(code, ForIterEnd(s, c), Br(|c.blocks| + 1));
    if s.increment.Some? {
      ExprExtends(code, s.increment.value, ForIter(s, c));
    }
    EmitExtends(code, ForBodyEnd(s, c), Br(|c.blocks| + 3));
    ForBodyExtends(code, s, c);
  }

  lemma EmitKeepsEmpty(c: Builder, i: Instr, b: BlockId)
    requires EmptyAt(c, b) && c.cur != b
    ensures EmptyAt(Emit(c, i), b)
  {
  }

  lemma ForBodyBlocks(s: Stmt, c: Builder)
    requires s.ForStmt? && GenExpr(s.cond, ForInit(s.start, c)).1.Some?
    ensures ForBody(s, c).blocks == EmitLoopBranch(GenExpr(s.cond, ForInit(s.start, c)).0,
                                                   GenExpr(s.cond, ForInit(s.start, c)).1.value,
                                                   |c.blocks| + 2, |c.blocks| + 4).blocks
  {
    hide GenExpr, ForInit, EmitLoopBranch;
  }

  lemma ForBodyExtends(code: Code, s: Stmt, c: Builder)
    requires s.ForStmt? && GenExpr(s.cond, ForInit(s.start, c)).1.Some?
    requires Extends(code, ForBodyEnd(s, c).blocks)
    ensures Extends(code,
                    EmitLoopBranch(GenExpr(s.cond, ForInit(s.start, c)).0, GenExpr(s.cond, ForInit(s.start, c)).1.value,
                                         |c.blocks| + 2, |c.blocks| + 4).blocks)
    ensures Extends(code, ForInit(s.start, c).blocks)
  {
    hide GenBlock, GenExpr, ForInit, ForBody, EmitLoopBranch, GrewFrom, Extends;
    BlockGrew(s.body, ForBody(s, c));
    var (c1, o) := GenExpr(s.cond, ForInit(s.start, c));
    ForBodyBlocks(s, c);
    GrewExtends(code, ForBody(s, c), ForBodyEnd(s, c), |ForBody(s, c).blocks|);
    LoopBranchExtends(code, c1, o.value, |c.blocks| + 2, |c.blocks| + 4);
    ExprExtends(code, s.cond, ForInit(s.start, c));
  }

  /** The first block of a for, and its end. */
  lemma ForInitUnfold(start: Option<Expr>, c: Builder)
    ensures ForInit(start, c).blocks == Emit(ForPartEnd(start, c), Br(|c.blocks| + 1)).blocks
    ensures ForInit(start, c).next == ForPartEnd(start, c).next
  {
    hide ForBlocks, GenExpr;
  }

  lemma ForPartFacts(c: Builder)
    ensures EmptyAt(ForPart(c), |c.blocks|) && ForPart(c).next == c.next
    ensures ForPart(c).blocks == Emit(ForBlocks(c), Br(|c.blocks|)).blocks
    ensures forall fr :: Here(ForBlocks(c), fr) == Here(c, fr)
  {
  }

  /** The first part of a for, from the jump into it to the condition. */
  lemma ForInitRuns(code: Code, start: Option<Expr>, c: Builder, fr: Frame, store: Store) returns (n: nat, fr': Frame)
    requires PartOk(start, store.Keys) && Represents(c.scopes, c.next, fr, store)
    requires Extends(code, ForInit(start, c).blocks)
    ensures Run(code, Here(c, fr), n) == Running(|c.blocks| + 1, 0, fr')
    ensures Represents(c.scopes, ForInit(start, c).next, fr', ExecPart(start, store))
  {
    hide ForInit, ForBlocks, ForPart, Extends, GenExpr, Represents, EmptyAt, Emit, PartOk;
    ForInitUnfold(start, c);
    ForPartFacts(c);
    EmitExtends(code, ForPartEnd(start, c), Br(|c.blocks| + 1));
    if start.Some? {
      ExprExtends(code, start.value, ForPart(c));
    }
    BrRuns(code, ForBlocks(c), |c.blocks|, fr);
    EmptyHere(ForPart(c), fr);
    assert Here(ForBlocks(c), fr) == Here(c, fr);
    RunOneMore(code, Here(c, fr), 0);
    var m;
    m, fr' := PartRuns(code, start, ForPart(c), fr, store);
    RunsOn(code, Here(c, fr), 1, Here(ForPart(c), fr), m, Here(ForPartEnd(start, c), fr'));
    BrRuns(code, ForPartEnd(start, c), |c.blocks| + 1, fr');
    RunOneMore(code, Here(c, fr), 1 + m);
    n := 2 + m;
  }

  /** Entering a for: its first part, then the condition. */
  lemma ForEnters(code: Code, s: Stmt, c: Builder, fr: Frame, store: Store) returns (n: nat, fr': Frame)
    requires s.ForStmt? && ForOk(s.start, s.cond, s.increment, s.body, store.Keys)
             && Represents(c.scopes, c.next, fr, store)
    requires Extends(code, GenFor(s, c).0.blocks)
    ensures Run(code, Here(c, fr), n) == Decided(s, c, ExecPart(s.start, store), fr')
    ensures Represents(c.scopes, c.next, fr', ExecPart(s.start, store))
  {
    hide Extends, GenExpr, GenFor, Represents, ForInit, EmitLoopBranch, AllBound, ForBodyEnd, ForIter, ForIterEnd;
    hide EmptyAt, Open;
    RepresentedBound(c.scopes, c.next, fr, store);
    ForStages(s, c, store.Keys);
    ForExtends(code, s, c, store.Keys);
    var n1, fr1 := ForInitRuns(code, s.start, c, fr, store);
    var n2;
    n2, fr' := ForTest(code, s, c, fr1, ExecPart(s.start, store));
    RunsOn(code, Here(c, fr), n1, Running(|c.blocks| + 1, 0, fr1), n2, Decided(s, c, ExecPart(s.start, store), fr'));
    n := n1 + n2;
  }

  /** The condition block of a for, entered at its start. */
  lemma ForTest(code: Code, s: Stmt, c: Builder, fr: Frame, store: Store) returns (n: nat, fr': Frame)
    requires s.ForStmt? && TypeOf(s.cond, store.Keys).Some? && GenExpr(s.cond, ForInit(s.start, c)).1.Some?
    requires exists m :: Represents(c.scopes, m, fr, store)
    requires AllBound(c.scopes, c.next, store.Keys) && c.next <= ForInit(s.start, c).next
    requires EmptyAt(ForInit(s.start, c), |c.blocks| + 1)
    requires Extends(code,
                     EmitLoopBranch(GenExpr(s.cond, ForInit(s.start, c)).0,
                                    GenExpr(s.cond, ForInit(s.start, c)).1.value,
                                          |c.blocks| + 2, |c.blocks| + 4).blocks)
    ensures n > 0 && Run(code, Running(|c.blocks| + 1, 0, fr), n) == Decided(s, c, store, fr')
    ensures Represents(c.scopes, c.next, fr', store)
  {
    hide Extends, GenExpr, Represents, ForInit, EmitLoopBranch, AllBound, EmptyAt;
    var d := ForInit(s.start, c);
    var m :| Represents(c.scopes, m, fr, store);
    RepresentsBelow(c.scopes, c.next, m, fr, store);
    RepresentsAbove(c.scopes, c.next, d.next, fr, store);
    EmptyHere(d, fr);
    n, fr' := TestRuns(code, s.cond, d, |c.blocks| + 2, |c.blocks| + 4, fr, store);
    RepresentsBelow(c.scopes, c.next, d.next, fr', store);
  }

  /** One round of a for: body, increment, condition. */
  lemma ForRound(code: Code, s: Stmt, c: Builder, fr: Frame, store: Store) returns (n: nat, fr': Frame)
    requires s.ForStmt? && ForOk(s.start, s.cond, s.increment, s.body, store.Keys)
             && Represents(c.scopes, c.next, fr, store)
    requires Extends(code, GenFor(s, c).0.blocks)
    ensures n > 0 && Run(code, Running(BodyBlock(s, c), 0, fr), n) == Decided(s, c, ExecRound(s, store), fr')
    ensures Represents(c.scopes, c.next, fr', ExecRound(s, store))
  {
    hide Extends, GenExpr, GenFor, Represents, ForInit, EmitLoopBranch, AllBound, ForIter, ForBody, EmptyAt, Open;
    hide GenBlock, TypeOf, Emit;
    RepresentedBound(c.scopes, c.next, fr, store);
    ForStages(s, c, store.Keys);
    ForExtends(code, s, c, store.Keys);
    EmptyHere(ForBody(s, c), fr);
    var n1, fr1 := BodyRuns(code, s.body, ForBody(s, c), c.scopes, c.next, fr, store);
    var store1 := ExecBody(s.body, store);
    var n2, fr2 := ForIncrement(code, s, c, fr1, store1);
    RunsOn(code, Running(BodyBlock(s, c), 0, fr), n1, Here(ForBodyEnd(s, c), fr1), n2, Running(|c.blocks| + 1, 0, fr2));
    var n3;
    n3, fr' := ForTest(code, s, c, fr2, ExecRound(s, store));
    RunsOn(code, Running(BodyBlock(s, c), 0, fr), n1 + n2, Running(|c.blocks| + 1, 0, fr2), n3,
           Decided(s, c, ExecRound(s, store), fr'));
    n := n1 + n2 + n3;
  }

  lemma ForIncrement(code: Code, s: Stmt, c: Builder, fr: Frame, store: Store) returns (n: nat, fr': Frame)
    requires s.ForStmt? && GenExpr(s.cond, ForInit(s.start, c)).1.Some? && PartOk(s.increment, store.Keys)
    requires Represents(c.scopes, c.next, fr, store)
    requires EmptyAt(ForIter(s, c), |c.blocks| + 3) && ForIter(s, c).scopes == c.scopes && c.next <= ForIter(s, c).next
    requires ForIter(s, c).blocks == Emit(ForBodyEnd(s, c), Br(|c.blocks| + 3)).blocks
    requires Extends(code, ForIter(s, c).blocks) && Extends(code, ForIterEnd(s, c).blocks)
    requires Extends(code, Emit(ForIterEnd(s, c), Br(|c.blocks| + 1)).blocks)
    ensures Run(code, Here(ForBodyEnd(s, c), fr), n) == Running(|c.blocks| + 1, 0, fr')
    ensures exists m :: Represents(c.scopes, m, fr', ExecPart(s.increment, store))
  {
    hide Extends, GenExpr, Represents, ForInit, ForIter, ForBodyEnd, EmptyAt, Emit;
    BrRuns(code, ForBodyEnd(s, c), |c.blocks| + 3, fr);
    RunOneMore(code, Here(ForBodyEnd(s, c), fr), 0);
    EmptyHere(ForIter(s, c), fr);
    RepresentsAbove(c.scopes, c.next, ForIter(s, c).next, fr, store);
    var m;
    m, fr' := PartRuns(code, s.increment, ForIter(s, c), fr, store);
    RunsOn(code, Here(ForBodyEnd(s, c), fr), 1, Here(ForIter(s, c), fr), m, Here(ForIterEnd(s, c), fr'));
    BrRuns(code, ForIterEnd(s, c), |c.blocks| + 1, fr');
    RunOneMore(code, Here(ForBodyEnd(s, c), fr), 1 + m);
    n := 2 + m;
    assert Represents(c.scopes, ForIterEnd(s, c).next, fr', ExecPart(s.increment, store));
  }
}
