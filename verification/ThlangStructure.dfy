/**
  What generating a statement does to the builder, whatever the statement is:
  code is only appended, at the insertion point or in blocks created by the
  statement; the scope stack keeps its depth and only its top changes, only at
  the names the statement declares.
*/
module ThlangStructure {
  import opened Wrappers
  import opened ThlangAst
  import opened ThlangIr
  import opened ThlangCodeGen
  import opened ThlangExprCorrect

  /** From c to d only the current block and blocks numbered n and up have changed or been inserted. */
  ghost predicate GrewFrom(c: Builder, d: Builder, n: nat) {
    && n <= |c.blocks| <= |d.blocks|
    && (forall b :: 0 <= b < |c.blocks| ==> c.blocks[b] <= d.blocks[b])
    && (forall b :: 0 <= b < n && b != c.cur ==> d.blocks[b] == c.blocks[b])
    && (d.cur == c.cur || d.cur >= n)
    && c.next <= d.next
    && c.layout <= d.layout
    && (forall k :: |c.layout| <= k < |d.layout| ==> n <= d.layout[k] < |d.blocks|)
  }

  lemma GrewTransitive(c: Builder, d: Builder, e: Builder, n: nat)
    requires GrewFrom(c, d, n) && GrewFrom(d, e, n)
    ensures GrewFrom(c, e, n)
  {
    forall b | 0 <= b < |c.blocks|
      ensures c.blocks[b] <= e.blocks[b]
    {
      assert c.blocks[b] <= d.blocks[b] <= e.blocks[b];
    }
  }

  lemma GrewBelow(c: Builder, d: Builder, n: nat, m: nat)
    requires GrewFrom(c, d, n) && m <= n
    ensures GrewFrom(c, d, m)
  {
  }

  lemma GrewExtends(code: Code, c: Builder, d: Builder, n: nat)
    requires GrewFrom(c, d, n) && Extends(code, d.blocks)
    ensures Extends(code, c.blocks)
  {
    forall b | 0 <= b < |c.blocks|
      ensures c.blocks[b] <= code[b]
    {
      assert c.blocks[b] <= d.blocks[b] <= code[b];
    }
  }

  // ----- the pieces -----

  lemma EmitGrew(c: Builder, i: Instr, n: nat)
    requires n <= |c.blocks|
    ensures GrewFrom(c, Emit(c, i), n) && GrewFrom(c, EmitTemp(c, i), n)
  {
  }

  lemma ExprGrew(e: Expr, c: Builder, n: nat)
    requires n <= |c.blocks|
    ensures GrewFrom(c, GenExpr(e, c).0, n)
  {
    hide GenExpr;
    var d := GenExpr(e, c).0;
    assert d.blocks == c.blocks[c.cur := d.blocks[c.cur]];
  }

  lemma PartGrew(e: Option<Expr>, c: Builder, n: nat)
    requires n <= |c.blocks|
    ensures GrewFrom(c, if e.None? then c else GenExpr(e.value, c).0, n)
  {
    if e.Some? {
      ExprGrew(e.value, c, n);
    }
  }

  lemma IfHeadGrew(c: Builder, o: Operand)
    ensures GrewFrom(c, IfHead(c, o), |c.blocks|)
    ensures IfHead(c, o).blocks[|c.blocks|..] == [[], [], []]
  {
  }

  lemma IfMiddleGrew(c: Builder, thenBB: BlockId)
    requires thenBB + 2 < |c.blocks| && thenBB <= c.cur
    ensures GrewFrom(c, IfMiddle(c, thenBB), thenBB)
  {
  }

  lemma IfTailGrew(c: Builder, thenBB: BlockId)
    requires thenBB + 2 < |c.blocks| && thenBB <= c.cur
    ensures GrewFrom(c, IfTail(c, thenBB + 2), thenBB)
  {
  }

  lemma LoopEntryGrew(c: Builder, o: Operand, body: BlockId, after: BlockId, n: nat)
    requires n <= body < |c.blocks|
    ensures GrewFrom(c, LoopEntry(c, o, body, after), n)
    ensures GrewFrom(c, EmitLoopBranch(c, o, body, after), n)
  {
  }

  lemma LoopExitGrew(c: Builder, after: BlockId, n: nat)
    requires n <= after < |c.blocks|
    ensures GrewFrom(c, LoopExit(c, after), n)
  {
  }

  lemma PopGrew(c: Builder, n: nat)
    requires n <= |c.blocks| && |c.scopes| > 1
    ensures GrewFrom(c, PopBlock(c), n)
  {
  }

  lemma ForBlocksGrew(c: Builder)
    ensures GrewFrom(c, ForBlocks(c), |c.blocks|)
  {
  }

  lemma MoveGrew(c: Builder, b: BlockId, n: nat)
    requires n <= b < |c.blocks|
    ensures GrewFrom(c, SetInsertPoint(c, b), n)
  {
  }

  lemma ForInitGrew(start: Option<Expr>, c: Builder)
    ensures GrewFrom(c, ForInit(start, c), |c.blocks|)
  {
    hide GrewFrom, ForBlocks, GenExpr;
    var n := |c.blocks|;
    var c1 := ForBlocks(c);
    ForBlocksGrew(c);
    var c2 := Emit(c1, Br(n));
    EmitGrew(c1, Br(n), n);
    GrewTransitive(c, c1, c2, n);
    EmitMoveGrew(c, c2, n, n);
    var c3 := SetInsertPoint(c2, n);
    var c4 := if start.None? then c3 else GenExpr(start.value, c3).0;
    PartGrew(start, c3, n);
    GrewTransitive(c, c3, c4, n);
    var c5 := Emit(c4, Br(n + 1));
    EmitGrew(c4, Br(n + 1), n);
    GrewTransitive(c, c4, c5, n);
    EmitMoveGrew(c, c5, n + 1, n);
  }

  lemma EmitMoveGrew(c: Builder, d: Builder, b: BlockId, n: nat)
    requires GrewFrom(c, d, n) && n <= b < |d.blocks|
    ensures GrewFrom(c, SetInsertPoint(d, b), n)
  {
    MoveGrew(d, b, n);
    GrewTransitive(c, d, SetInsertPoint(d, b), n);
  }

  lemma ForStepGrew(c: Builder, first: BlockId)
    requires first + 4 < |c.blocks| && |c.scopes| > 1 && first <= c.cur
    ensures GrewFrom(c, ForStep(c, first), first)
  {
  }

  lemma ForEndGrew(increment: Option<Expr>, c: Builder, first: BlockId)
    requires first + 4 < |c.blocks| && |c.scopes| > 1 && first <= c.cur
    ensures GrewFrom(c, ForEnd(increment, c, first), first)
  {
    hide GrewFrom, GenExpr, LoopExit, ForStep, Emit;
    var c1 := ForStep(c, first);
    ForStepGrew(c, first);
    var c2 := if increment.None? then c1 else GenExpr(increment.value, c1).0;
    PartGrew(increment, c1, first);
    GrewTransitive(c, c1, c2, first);
    var c3 := Emit(c2, Br(first + 1));
    EmitGrew(c2, Br(first + 1), first);
    GrewTransitive(c, c2, c3, first);
    LoopExitGrew(c3, first + 4, first);
    GrewTransitive(c, c3, ForEnd(increment, c, first), first);
  }

  lemma WhileHeadGrew(c: Builder)
    ensures GrewFrom(c, WhileHead(c), |c.blocks|)
  {
  }

  lemma WhileEndGrew(c: Builder, o: Operand, n: nat)
    requires n + 1 < |c.blocks|
    ensures GrewFrom(c, WhileEnd(c, o, n), n)
  {
    var d := EmitLoopBranch(c, o, n, n + 1);
    LoopEntryGrew(c, o, n, n + 1, n);
    hide EmitLoopBranch;
    assert GrewFrom(d, InsertInto(d, n + 1), n);
    LoopExitGrew(InsertInto(d, n + 1), n + 1, n);
    GrewTransitive(c, d, InsertInto(d, n + 1), n);
    GrewTransitive(c, InsertInto(d, n + 1), LoopExit(InsertInto(d, n + 1), n + 1), n);
  }

  // ----- statements -----

  /** Generation appends: nothing that was emitted before is changed or moved. */
  lemma {:induction false} StmtGrew(s: Stmt, c: Builder)
    ensures GrewFrom(c, GenStmt(s, c).0, |c.blocks|)
    decreases s, 2
  {
    var n := |c.blocks|;
    match s
    case ExprStmt(e) => ExprGrew(e, c, n);
    case VarStmt(x, init) => VarGrew(x, init, c);
    case IfStmt(_, _, _) => IfGrew(s, c);
    case ForStmt(_, _, _, _) => ForGrew(s, c);
    case WhileStmt(_, _) => WhileGrew(s, c);
    case ReturnStmt(v) =>
      if v.Some? {
        ExprGrew(v.value, c, n);
      }
  }

  lemma VarGrew(x: string, init: Option<Expr>, c: Builder)
    ensures GrewFrom(c, GenVar(x, init, c).0, |c.blocks|)
  {
    var n := |c.blocks|;
    var c1 := SetValue(EmitTemp(c, Alloca(c.next)), x, Temp(c.next, Pointer));
    EmitGrew(c, Alloca(c.next), n);
    assert GrewFrom(c, c1, n);
    if init.Some? {
      var (c2, o) := GenExpr(init.value, c1);
      ExprGrew(init.value, c1, n);
      GrewTransitive(c, c1, c2, n);
      if o.Some? {
        EmitGrew(c2, Instr.Store(o.value, Temp(c.next, Pointer)), n);
        GrewTransitive(c, c2, Emit(c2, Instr.Store(o.value, Temp(c.next, Pointer))), n);
      }
    }
  }

  lemma {:induction false} IfGrew(s: Stmt, c: Builder)
    requires s.IfStmt?
    ensures GrewFrom(c, GenIf(s, c).0, |c.blocks|)
    decreases s, 1
  {
    hide GrewFrom, GenExpr, IfHead, IfMiddle, IfTail, GenBlock, GenStmt;
    var n := |c.blocks|;
    var (c1, o) := GenExpr(s.cond, c);
    ExprGrew(s.cond, c, n);
    if o.Some? {
      IfHeadGrew(c1, o.value);
      GrewTransitive(c, c1, IfHead(c1, o.value), n);
      IfGrewFromHead(s, c);
      GrewTransitive(c, IfHead(c1, o.value), GenIf(s, c).0, n);
    }
  }

  /** The branches of an if, generated behind its head. */
  lemma {:induction false} IfGrewFromHead(s: Stmt, c: Builder)
    requires s.IfStmt? && GenExpr(s.cond, c).1.Some?
    ensures GrewFrom(IfHead(GenExpr(s.cond, c).0, GenExpr(s.cond, c).1.value), GenIf(s, c).0, |c.blocks|)
    decreases s, 0
  {
    hide GrewFrom, GenExpr, IfHead, IfMiddle, IfTail, GenBlock, GenStmt;
    var n := |c.blocks|;
    var (c1, o) := GenExpr(s.cond, c);
    var h := IfHead(c1, o.value);
    var (c2, v) := GenBlock(s.thn, h);
    BlockGrewAbove(s.thn, h, n);
    if v.Some? {
      var c3 := IfMiddle(c2, n);
      IfMiddleGrew(c2, n);
      GrewTransitive(h, c2, c3, n);
      if s.els.Else? {
        var (c4, w) := GenBlock(s.els.stmts, c3);
        BlockGrewAbove(s.els.stmts, c3, n);
        GrewTransitive(h, c3, c4, n);
        if w.Some? {
          IfTailGrew(c4, n);
          GrewTransitive(h, c4, IfTail(c4, n + 2), n);
        }
      } else {
        IfTailGrew(c3, n);
        GrewTransitive(h, c3, IfTail(c3, n + 2), n);
      }
    }
  }

  lemma {:induction false} ForGrew(s: Stmt, c: Builder)
    requires s.ForStmt?
    ensures GrewFrom(c, GenFor(s, c).0, |c.blocks|)
    decreases s, 1
  {
    hide GrewFrom, ForInit, GenFor;
    ForInitGrew(s.start, c);
    ForGrewFromInit(s, c);
    GrewTransitive(c, ForInit(s.start, c), GenFor(s, c).0, |c.blocks|);
  }

  lemma {:induction false} ForGrewFromInit(s: Stmt, c: Builder)
    requires s.ForStmt?
    ensures GrewFrom(ForInit(s.start, c), GenFor(s, c).0, |c.blocks|)
    decreases s, 0
  {
    hide GrewFrom, GenExpr, ForInit, LoopEntry, ForEnd, GenBlock, GenStmt;
    var n := |c.blocks|;
    var c1 := ForInit(s.start, c);
    var (c2, o) := GenExpr(s.cond, c1);
    ExprGrew(s.cond, c1, n);
    if o.Some? {
      var c3 := LoopEntry(c2, o.value, n + 2, n + 4);
      LoopEntryGrew(c2, o.value, n + 2, n + 4, n);
      GrewTransitive(c1, c2, c3, n);
      var c4 := GenBlock(s.body, c3).0;
      BlockGrewAbove(s.body, c3, n);
      GrewTransitive(c1, c3, c4, n);
      ForEndGrew(s.increment, c4, n);
      GrewTransitive(c1, c4, ForEnd(s.increment, c4, n), n);
    }
  }

  lemma {:induction false} WhileGrew(s: Stmt, c: Builder)
    requires s.WhileStmt?
    ensures GrewFrom(c, GenWhile(s, c).0, |c.blocks|)
    decreases s, 1
  {
    hide GrewFrom, GenExpr, WhileHead, LoopEntry, WhileEnd, GenBlock, GenStmt;
    var n := |c.blocks|;
    var (c1, o) := GenExpr(s.cond, WhileHead(c));
    WhileHeadGrew(c);
    ExprGrew(s.cond, WhileHead(c), n);
    GrewTransitive(c, WhileHead(c), c1, n);
    if o.Some? {
      var c2 := LoopEntry(c1, o.value, n, n + 1);
      LoopEntryGrew(c1, o.value, n, n + 1, n);
      GrewTransitive(c, c1, c2, n);
      WhileGrewFromEntry(s, c);
      GrewTransitive(c, c2, GenWhile(s, c).0, n);
    }
  }

  /** The body of a while and its second test, generated behind the first test. */
  lemma {:induction false} WhileGrewFromEntry(s: Stmt, c: Builder)
    requires s.WhileStmt? && GenExpr(s.cond, WhileHead(c)).1.Some?
    ensures var (c1, o) := GenExpr(s.cond, WhileHead(c));
            GrewFrom(LoopEntry(c1, o.value, |c.blocks|, |c.blocks| + 1), GenWhile(s, c).0, |c.blocks|)
    decreases s, 0
  {
    hide GrewFrom, GenExpr, WhileHead, LoopEntry, WhileEnd, GenBlock, GenStmt;
    var n := |c.blocks|;
    var (c1, o) := GenExpr(s.cond, WhileHead(c));
    var c2 := LoopEntry(c1, o.value, n, n + 1);
    var c3 := GenBlock(s.body, c2).0;
    BlockGrewAbove(s.body, c2, n);
    var c4 := PopBlock(c3);
    PopGrew(c3, n);
    GrewTransitive(c2, c3, c4, n);
    var (c5, o2) := GenExpr(s.cond, c4);
    ExprGrew(s.cond, c4, n);
    GrewTransitive(c2, c4, c5, n);
    if o2.Some? {
      WhileEndGrew(c5, o2.value, n);
      GrewTransitive(c2, c5, WhileEnd(c5, o2.value, n), n);
    }
  }

  lemma {:induction false} BlockGrewAbove(ss: seq<Stmt>, c: Builder, n: nat)
    requires n <= c.cur
    ensures GrewFrom(c, GenBlock(ss, c).0, n) && n <= GenBlock(ss, c).0.cur
    decreases ss, 3
  {
    BlockGrew(ss, c);
    GrewBelow(c, GenBlock(ss, c).0, |c.blocks|, n);
  }

  lemma {:induction false} BlockGrew(ss: seq<Stmt>, c: Builder)
    ensures GrewFrom(c, GenBlock(ss, c).0, |c.blocks|)
    decreases ss, 2
  {
    if ss != [] {
      StmtGrew(ss[0], c);
      if |ss| > 1 {
        var d := GenStmt(ss[0], c).0;
        BlockGrew(ss[1..], d);
        GrewBelow(d, GenBlock(ss[1..], d).0, |d.blocks|, |c.blocks|);
        GrewTransitive(c, d, GenBlock(ss[1..], d).0, |c.blocks|);
      }
    }
  }
}
