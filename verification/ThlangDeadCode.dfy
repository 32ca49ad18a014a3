/**
  Statements behind the return or loop that ends a body. The block they are generated into has its terminator
  already, so the graph stays well formed exactly when they make the generator emit nothing.
*/
module ThlangDeadCode {
  import opened Wrappers
  import opened ThlangAst
  import opened ThlangIr
  import opened ThlangCodeGen
  import opened ThlangStructure
  import opened ThlangSemantics
  import opened ThlangShape
  import opened ThlangLoopCorrect
  import opened ThlangFunctionCorrect
  import opened ThlangGraph
  import opened ThlangLoopGraph

  // ----- what emits nothing -----

  /** The generator gets a value for the expression. */
  predicate Valued(e: Expr, scopes: seq<Scope>) {
    match e
    case IntLit(_) => true
    case Name(x) => GetValue(scopes, x).Some?
    case UnOp(op, e1) => Valued(e1, scopes) && op != Not
    case BinOp(op, l, r) => Valued(l, scopes) && Valued(r, scopes) && !op.OtherOp?
    case Assign(x, e1) => GetValue(scopes, x).Some? && Valued(e1, scopes)
  }

  /** It emits no instruction for it: a literal, or an operation that fails before it comes to emit anything. */
  predicate Quiet(e: Expr, scopes: seq<Scope>) {
    match e
    case IntLit(_) => true
    case Name(_) => !Valued(e, scopes)
    case UnOp(op, e1) => Quiet(e1, scopes) && (op == Neg ==> !Valued(e1, scopes))
    case BinOp(op, l, r) => Quiet(l, scopes) && Quiet(r, scopes) && !Valued(e, scopes)
    case Assign(x, e1) => GetValue(scopes, x).None? || (Quiet(e1, scopes) && !Valued(e1, scopes))
  }

  /** It emits nothing for the statement and creates no block for it. */
  predicate Idle(s: Stmt, scopes: seq<Scope>) {
    match s
    case ExprStmt(e) => Quiet(e, scopes)
    case IfStmt(cond, _, _) => Quiet(cond, scopes) && !Valued(cond, scopes)
    case _ => false
  }

  lemma {:induction false} QuietIff(e: Expr, c: Builder)
    ensures GenExpr(e, c).1.Some? <==> Valued(e, c.scopes)
    ensures if Quiet(e, c.scopes) then GenExpr(e, c).0 == c
            else |GenExpr(e, c).0.blocks[c.cur]| > |c.blocks[c.cur]|
    decreases e
  {
    hide Emit;
    match e
    case IntLit(_) =>
    case Name(x) =>
      if Valued(e, c.scopes) {
        EmitTempLonger(c, Load(c.next, GetValue(c.scopes, x).value));
      }
    case UnOp(_, e1) =>
      QuietIff(e1, c);
      var (c1, o) := GenExpr(e1, c);
      if o.Some? {
        EmitTempLonger(c1, Binary(c1.next, BSub, Const(I32, 0), o.value));
      }
    case BinOp(op, l, r) => QuietBinOp(op, l, r, c);
    case Assign(x, e1) =>
      QuietIff(e1, c);
      var (c1, o) := GenExpr(e1, c);
      if o.Some? && GetValue(c.scopes, x).Some? {
        EmitLonger(c1, Instr.Store(o.value, GetValue(c.scopes, x).value));
      }
  }

  lemma {:induction false} QuietBinOp(op: BinaryOp, l: Expr, r: Expr, c: Builder)
    ensures GenExpr(BinOp(op, l, r), c).1.Some? <==> Valued(BinOp(op, l, r), c.scopes)
    ensures if Quiet(BinOp(op, l, r), c.scopes) then GenExpr(BinOp(op, l, r), c).0 == c
            else |GenExpr(BinOp(op, l, r), c).0.blocks[c.cur]| > |c.blocks[c.cur]|
    decreases BinOp(op, l, r), 0
  {
    hide EmitBinOp;
    QuietIff(l, c);
    QuietIff(r, GenExpr(l, c).0);
    var (c2, o2) := GenExpr(r, GenExpr(l, c).0);
    if GenExpr(l, c).1.Some? && o2.Some? {
      EmitBinOpLonger(c2, op, GenExpr(l, c).1.value, o2.value);
    }
  }

  /** A condition that has a value in front of a while has one at its bottom, where nothing tests for null. */
  lemma RetestHasValue(s: Stmt, c: Builder)
    requires s.WhileStmt? && GenExpr(s.cond, WhileHead(c)).1.Some?
    ensures GenExpr(s.cond, WhileRetest(s, c)).1.Some?
  {
    hide GenExpr, WhileHead, WhileRetest, Valued, Quiet, EmptyAt;
    WhileBodyEmpty(s, c);
    WhileRetestFacts(s, c);
    QuietIff(s.cond, WhileHead(c));
    QuietIff(s.cond, WhileRetest(s, c));
  }

  lemma EmitLonger(c: Builder, i: Instr)
    ensures |Emit(c, i).blocks[c.cur]| == |c.blocks[c.cur]| + 1
  {
  }

  lemma EmitTempLonger(c: Builder, i: Instr)
    ensures |EmitTemp(c, i).blocks[c.cur]| == |c.blocks[c.cur]| + 1
  {
  }

  lemma EmitBinOpLonger(c: Builder, op: BinaryOp, l: Operand, r: Operand)
    ensures EmitBinOp(c, op, l, r).1.Some? <==> !op.OtherOp?
    ensures if op.OtherOp? then EmitBinOp(c, op, l, r).0 == c
            else |EmitBinOp(c, op, l, r).0.blocks[c.cur]| == |c.blocks[c.cur]| + 1
  {
  }

  lemma IdleStays(s: Stmt, c: Builder)
    requires Idle(s, c.scopes)
    ensures GenStmt(s, c).0 == c
  {
    QuietIff(if s.ExprStmt? then s.expr else s.cond, c);
  }

  // ----- what goes wrong otherwise -----

  /** From c to d, generation has gone on behind the terminator of c, or has left block n of d inserted and empty. */
  ghost predicate Spoilt(c: Builder, d: Builder, n: BlockId) {
    && c.cur < |d.blocks| && c.blocks[c.cur] <= d.blocks[c.cur]
    && (|c.blocks[c.cur]| < |d.blocks[c.cur]| || (n in d.layout && EmptyAt(d, n) && d.cur != n))
  }

  lemma SpoiltOn(c: Builder, d: Builder, e: Builder, n: BlockId, m: nat)
    requires Spoilt(c, d, n) && GrewFrom(d, e, m) && n <= m == |d.blocks|
    ensures Spoilt(c, e, n)
  {
    if n in d.layout {
      var k :| 0 <= k < |d.layout| && d.layout[k] == n;
      assert e.layout[k] == n;
    }
  }

  lemma StmtSpoils(s: Stmt, c: Builder)
    requires !Idle(s, c.scopes)
    ensures Spoilt(c, GenStmt(s, c).0, |c.blocks|)
  {
    hide Spoilt, GenExpr, GenVar, GenIf, GenFor, GenWhile;
    match s
    case ExprStmt(e) => ExprSpoils(e, c);
    case VarStmt(x, init) => VarSpoils(x, init, c);
    case IfStmt(_, _, _) => IfSpoils(s, c);
    case ForStmt(_, _, _, _) => ForSpoils(s, c);
    case WhileStmt(_, _) => WhileSpoils(s, c);
    case ReturnStmt(v) => ReturnSpoils(v, c);
  }

  lemma ExprSpoils(e: Expr, c: Builder)
    requires !Quiet(e, c.scopes)
    ensures Spoilt(c, GenExpr(e, c).0, |c.blocks|)
  {
    hide GenExpr;
    QuietIff(e, c);
  }

  lemma VarSpoils(x: string, init: Option<Expr>, c: Builder)
    ensures Spoilt(c, GenVar(x, init, c).0, |c.blocks|)
  {
    hide GenExpr;
  }

  lemma ReturnSpoils(v: Option<Expr>, c: Builder)
    ensures Spoilt(c, GenStmt(ReturnStmt(v), c).0, |c.blocks|)
  {
    hide GenExpr, Spoilt, Emit;
    if v.None? {
      EmitSpoils(c, c, RetVoid);
    } else {
      var (c1, o) := GenExpr(v.value, c);
      EmitSpoils(c, c1, if o.None? then RetVoid else Ret(o.value));
    }
  }

  lemma EmitSpoils(c: Builder, d: Builder, i: Instr)
    requires |d.blocks| == |c.blocks| && d.cur == c.cur && c.blocks[c.cur] <= d.blocks[c.cur]
    ensures Spoilt(c, Emit(d, i), |c.blocks|)
  {
  }

  lemma IfSpoils(s: Stmt, c: Builder)
    requires s.IfStmt? && !Idle(s, c.scopes)
    ensures Spoilt(c, GenIf(s, c).0, |c.blocks|)
  {
    hide GenExpr, IfHead, GenBlock, GenStmt, Quiet, Valued;
    QuietIff(s.cond, c);
    var (c1, o) := GenExpr(s.cond, c);
    if o.Some? {
      IfHeadEmits(c1, o.value);
      IfGrewFromHead(s, c);
      hide GenIf;
    }
  }

  lemma IfHeadEmits(c: Builder, o: Operand)
    ensures c.blocks[c.cur] <= IfHead(c, o).blocks[c.cur] && |c.blocks[c.cur]| < |IfHead(c, o).blocks[c.cur]|
  {
  }

  lemma ForSpoils(s: Stmt, c: Builder)
    requires s.ForStmt?
    ensures Spoilt(c, GenFor(s, c).0, |c.blocks|)
  {
    hide GenFor, ForInit, GenExpr, ForPartEnd;
    ForInitUnfold(s.start, c);
    ForPartEndKeeps(s.start, c);
    ForPartEmits(c);
    ForGrewFromInit(s, c);
  }

  lemma ForPartEmits(c: Builder)
    ensures ForPart(c).blocks[c.cur] == c.blocks[c.cur] + [Br(|c.blocks|)]
  {
  }

  lemma WhileSpoils(s: Stmt, c: Builder)
    requires s.WhileStmt?
    ensures Spoilt(c, GenWhile(s, c).0, |c.blocks|)
  {
    hide GenExpr, WhileHead, LoopEntry, GenBlock, GenStmt, GenWhile, GrewFrom, EmptyAt;
    var n := |c.blocks|;
    WhileHeadLeaves(c);
    var (c1, o) := GenExpr(s.cond, WhileHead(c));
    if o.Some? {
      LoopEntryEmits(c1, o.value, n, n + 1);
      WhileGrewFromEntry(s, c);
      GrewKeepsPrefix(LoopEntry(c1, o.value, n, n + 1), GenWhile(s, c).0, n, c.cur);
    } else {
      WhileStops(s, c);
      ExprKeepsEmpty(s.cond, WhileHead(c), n);
    }
  }

  lemma GrewKeepsPrefix(c: Builder, d: Builder, n: nat, b: BlockId)
    requires GrewFrom(c, d, n) && b < |c.blocks|
    ensures b < |d.blocks| && c.blocks[b] <= d.blocks[b]
  {
  }

  lemma WhileStops(s: Stmt, c: Builder)
    requires s.WhileStmt? && GenExpr(s.cond, WhileHead(c)).1.None?
    ensures GenWhile(s, c).0 == GenExpr(s.cond, WhileHead(c)).0
  {
  }

  lemma WhileHeadLeaves(c: Builder)
    ensures var d := WhileHead(c);
            d.blocks[c.cur] == c.blocks[c.cur] && |c.blocks| in d.layout && EmptyAt(d, |c.blocks|)
  {
    assert WhileHead(c).layout[|c.layout|] == |c.blocks|;
  }

  lemma LoopEntryEmits(c: Builder, o: Operand, body: BlockId, after: BlockId)
    requires body < |c.blocks|
    ensures var d := LoopEntry(c, o, body, after);
            c.blocks[c.cur] <= d.blocks[c.cur] && |c.blocks[c.cur]| < |d.blocks[c.cur]|
  {
  }

  lemma SpoiltIsMalformed(c: Builder, d: Builder, n: BlockId)
    requires !Open(c) && Spoilt(c, d, n)
    ensures !WellFormed(d)
  {
    var k := |c.blocks[c.cur]| - 1;
    assert d.blocks[c.cur][k] == c.blocks[c.cur][k];
  }

  /** Nothing, or something that no later statement repairs. */
  lemma {:induction false} IdleOrSpoilt(ss: seq<Stmt>, c: Builder)
    ensures if forall i :: 0 <= i < |ss| ==> Idle(ss[i], c.scopes) then GenBlock(ss, c).0 == c
            else Spoilt(c, GenBlock(ss, c).0, |c.blocks|)
    decreases |ss|
  {
    hide Idle, Spoilt, GenStmt;
    if ss != [] {
      if Idle(ss[0], c.scopes) {
        IdleStays(ss[0], c);
        assert forall i :: 0 < i < |ss| ==> ss[i] == ss[1..][i - 1];
        IdleOrSpoilt(ss[1..], c);
      } else {
        StmtSpoils(ss[0], c);
        if |ss| > 1 {
          var d := GenStmt(ss[0], c).0;
          BlockGrew(ss[1..], d);
          SpoiltOn(c, d, GenBlock(ss[1..], d).0, |c.blocks|, |d.blocks|);
        }
      }
    }
  }

  /**
    The graph of a supported body with more statements behind its end is well formed exactly when none of these makes
    the generator emit an instruction or create a block: they are literals, or fail at once.
  */
  lemma NothingAfterFinalIff(f: Function, extra: seq<Stmt>, next: nat, outer: seq<Scope>)
    requires Supported(f)
    ensures WellFormed(GenFunction(f.(body := f.body + extra), next, outer))
            <==> forall i :: 0 <= i < |extra| ==> Idle(extra[i], GenFunction(f, next, outer).scopes)
  {
    var c := GenParams(f.params, 0, EntryCtx(next, outer));
    var d := GenFunction(f, next, outer);
    GenAppended(f.body, extra, c);
    FinalCloses(f, next, outer);
    IdleOrSpoilt(extra, d);
    GraphWellFormed(f, next, outer);
    hide *;
    if !(forall i :: 0 <= i < |extra| ==> Idle(extra[i], d.scopes)) {
      SpoiltIsMalformed(d, GenBlock(extra, d).0, |d.blocks|);
    }
  }

  /** The body ends in a block that has its terminator. */
  lemma FinalCloses(f: Function, next: nat, outer: seq<Scope>)
    requires Supported(f)
    ensures !Open(GenFunction(f, next, outer))
  {
    hide *;
    var e := BeforeFinalGraph(f, next, outer);
    FinalStmtCloses(Final(f.body), BeforeFinal(f, next, outer), FinalNames(f), e);
  }

  lemma FinalStmtCloses(s: Stmt, c: Builder, names: set<string>, entry: Entry)
    requires FinalOk(s, names) && Ready(c, entry, {}, names)
    ensures !Open(GenStmt(s, c).0)
  {
    hide Good, InstrGood, Slots, Available, GenFor, GenWhile, GenExpr, TypeOf, LoopBodyOk, AllBound, Open;
    SlotsBound(c, entry, names);
    match s
    case ReturnStmt(v) =>
      if v.Some? {
        ReturnGood(v.value, c, names, entry, {});
      } else {
        VoidCloses(c);
      }
    case WhileStmt(_, _) => WhileCloses(s, c, names);
    case ForStmt(_, _, _, _) => ForCloses(s, c, names);
  }

  lemma VoidCloses(c: Builder)
    ensures !Open(Emit(c, RetVoid))
  {
  }

  lemma WhileCloses(s: Stmt, c: Builder, names: set<string>)
    requires s.WhileStmt? && TypeOf(s.cond, names).Some? && AllBound(c.scopes, c.next, names)
    ensures !Open(GenWhile(s, c).0)
  {
    hide GenWhile, GenExpr, LoopExit, Open, EmitLoopBranch, WhileRetest;
    WhileStages(s, c, names);
    WhileUnfold(s, c);
    var (c1, o) := GenExpr(s.cond, WhileRetest(s, c));
    ExitCloses(InsertInto(EmitLoopBranch(c1, o.value, |c.blocks|, |c.blocks| + 1), |c.blocks| + 1), |c.blocks| + 1);
  }

  lemma ForCloses(s: Stmt, c: Builder, names: set<string>)
    requires s.ForStmt? && ForOk(s.start, s.cond, s.increment, s.body, names) && AllBound(c.scopes, c.next, names)
    ensures !Open(GenFor(s, c).0)
  {
    hide GenFor, GenExpr, LoopExit, Open, ForInit, ForIterEnd, ForBody, ForBodyEnd, ForIter, EmptyAt, ForOk, AllBound;
    ForStages(s, c, names);
    ForUnfold(s, c);
    ExitCloses(Emit(ForIterEnd(s, c), Br(|c.blocks| + 1)), |c.blocks| + 4);
  }

  lemma ExitCloses(c: Builder, after: BlockId)
    requires after < |c.blocks|
    ensures !Open(LoopExit(c, after))
  {
  }
}
