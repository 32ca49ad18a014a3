/**
  Which blocks are open, which are empty, and which statements have a value, for
  the statements that StmtOk admits. A null value in a branch would be taken for a
  failure, so this is where the restriction on the ends of branches comes from.
*/
module ThlangShape {
  import opened Wrappers
  import opened ThlangAst
  import opened ThlangSemantics
  import opened ThlangIr
  import opened ThlangCodeGen
  import opened ThlangExprCorrect
  import opened ThlangStructure
  import opened ThlangScopes

  /** Every name is bound to a stack slot. */
  ghost predicate AllBound(scopes: seq<Scope>, next: nat, names: set<string>) {
    forall x :: x in names ==>
      match GetValue(scopes, x)
      case Some(Temp(id, Pointer)) => id < next
      case _ => false
  }

  predicate Open(c: Builder) {
    !HasTerminator(c.blocks[c.cur])
  }

  lemma AllBoundKept(a: seq<Scope>, n: nat, b: seq<Scope>, m: nat, names: set<string>, changed: set<string>)
    requires AllBound(a, n, names) && SameOutside(a, b, changed) && changed !! names && n <= m
    ensures AllBound(b, m, names)
  {
    forall x | x in names
      ensures GetValue(b, x) == GetValue(a, x)
    {
      SameLookup(a, b, changed, x);
    }
  }

  lemma RepresentedBound(scopes: seq<Scope>, next: nat, fr: Frame, s: Store)
    requires Represents(scopes, next, fr, s)
    ensures AllBound(scopes, next, s.Keys)
  {
    forall x | x in s.Keys
      ensures match GetValue(scopes, x) case Some(Temp(id, Pointer)) => id < next case _ => false
    {
      assert Held(scopes, next, fr, s, x);
    }
  }

  // ----- expressions -----

  lemma {:induction false} ExprGenerated(e: Expr, c: Builder, names: set<string>)
    requires TypeOf(e, names).Some? && AllBound(c.scopes, c.next, names)
    ensures GenExpr(e, c).1.Some?
    ensures IsOperandOf(GenExpr(e, c).1.value, TypeOf(e, names).value, GenExpr(e, c).0.next)
  {
    match e
    case IntLit(_) =>
    case Name(_) =>
    case UnOp(op, e1) => ExprGenerated(e1, c, names);
    case BinOp(op, l, r) =>
      ExprGenerated(l, c, names);
      var c1 := GenExpr(l, c).0;
      ExprGenerated(r, c1, names);
  }

  lemma {:induction false} ExprOpen(e: Expr, c: Builder)
    requires Open(c)
    ensures Open(GenExpr(e, c).0)
  {
    match e
    case IntLit(_) =>
    case Name(_) =>
    case UnOp(_, e1) => ExprOpen(e1, c);
    case BinOp(_, l, r) =>
      ExprOpen(l, c);
      ExprOpen(r, GenExpr(l, c).0);
    case Assign(_, e1) => ExprOpen(e1, c);
  }

  lemma ExprStmtGenerated(e: Expr, c: Builder, names: set<string>)
    requires ExprStmtOk(e, names) && AllBound(c.scopes, c.next, names)
    ensures GenExpr(e, c).1.Some?
  {
    ExprGenerated(if e.Assign? then e.rhs else e, c, names);
  }

  // ----- statements -----

  lemma {:induction false} StmtShape(s: Stmt, c: Builder, names: set<string>)
    requires StmtOk(s, names) && AllBound(c.scopes, c.next, names) && Open(c)
    ensures Open(GenStmt(s, c).0) <==> !s.ReturnStmt?
    ensures GenStmt(s, c).1.Some? <==> !s.IfStmt?
    ensures AllBound(GenStmt(s, c).0.scopes, GenStmt(s, c).0.next, After(s, names))
    decreases s, 1
  {
    match s
    case ExprStmt(e) =>
      ExprOpen(e, c);
      ExprStmtGenerated(e, c, names);
    case VarStmt(x, init) =>
      VarShape(x, init.value, c, names);
    case IfStmt(_, _, _) =>
      IfShape(s, c, names);
      StmtScopes(s, c);
      StmtGrew(s, c);
      AllBoundKept(c.scopes, c.next, GenStmt(s, c).0.scopes, GenStmt(s, c).0.next, names, Declared(s));
    case ReturnStmt(v) =>
      ExprGenerated(v.value, c, names);
  }

  lemma DeclaredBound(x: string, c: Builder, names: set<string>)
    requires AllBound(c.scopes, c.next, names - {x})
    ensures var c1 := SetValue(EmitTemp(c, Alloca(c.next)), x, Temp(c.next, Pointer));
            && AllBound(c1.scopes, c1.next, names + {x})
            && GetValue(c1.scopes, x) == Some(Temp(c.next, Pointer))
            && SameOutside(c.scopes, c1.scopes, {x})
  {
    var c1 := SetValue(EmitTemp(c, Alloca(c.next)), x, Temp(c.next, Pointer));
    forall y | y in names + {x} && y != x
      ensures GetValue(c1.scopes, y) == GetValue(c.scopes, y)
    {
      SameLookup(c.scopes, c1.scopes, {x}, y);
    }
  }

  lemma VarShape(x: string, init: Expr, c: Builder, names: set<string>)
    requires TypeOf(init, names - {x}) == Some(IntTy) && AllBound(c.scopes, c.next, names) && Open(c)
    ensures var (d, v) := GenVar(x, Some(init), c);
            Open(d) && v.Some? && AllBound(d.scopes, d.next, names + {x})
  {
    var c1 := SetValue(EmitTemp(c, Alloca(c.next)), x, Temp(c.next, Pointer));
    DeclaredBound(x, c, names);
    hide SetValue;
    ExprGenerated(init, c1, names - {x});
    ExprOpen(init, c1);
    assert Open(c1);
  }

  /** The stages of an if whose branches are generated to their ends. */
  function ThenStart(s: Stmt, c: Builder): (r: Builder)
    requires s.IfStmt? && GenExpr(s.cond, c).1.Some?
    ensures r.cur == |c.blocks| && |r.blocks| == |c.blocks| + 3 && r.layout == c.layout + [|c.blocks|]
  {
    var (c1, o) := GenExpr(s.cond, c);
    IfHead(c1, o.value)
  }

  function ThenEnd(s: Stmt, c: Builder): (r: Builder)
    requires s.IfStmt? && GenExpr(s.cond, c).1.Some?
    ensures |c.blocks| + 3 <= |r.blocks|
  {
    GenBlock(s.thn, ThenStart(s, c)).0
  }

  function ElseStart(s: Stmt, c: Builder): (r: Builder)
    requires s.IfStmt? && GenExpr(s.cond, c).1.Some?
    ensures |c.blocks| + 3 <= |r.blocks| && r.cur == |c.blocks| + 1
  {
    IfMiddle(ThenEnd(s, c), |c.blocks|)
  }

  function ElseEnd(s: Stmt, c: Builder): (r: Builder)
    requires s.IfStmt? && GenExpr(s.cond, c).1.Some?
    ensures |c.blocks| + 3 <= |r.blocks|
  {
    if s.els.NoElse? then ElseStart(s, c) else GenBlock(s.els.stmts, ElseStart(s, c)).0
  }

  lemma ThenEndUnfold(s: Stmt, c: Builder)
    requires s.IfStmt? && GenExpr(s.cond, c).1.Some?
    ensures ThenEnd(s, c) == GenBlock(s.thn, ThenStart(s, c)).0
  {
  }

  lemma ElseEndUnfold(s: Stmt, c: Builder)
    requires s.IfStmt? && GenExpr(s.cond, c).1.Some?
    ensures ElseEnd(s, c) == if s.els.NoElse? then ElseStart(s, c) else GenBlock(s.els.stmts, ElseStart(s, c)).0
  {
  }

  predicate EmptyAt(c: Builder, b: BlockId) {
    b < |c.blocks| && c.blocks[b] == []
  }

  lemma IfHeadEmpty(c: Builder, o: Operand)
    ensures var n := |c.blocks|;
            && EmptyAt(IfHead(c, o), n) && EmptyAt(IfHead(c, o), n + 1) && EmptyAt(IfHead(c, o), n + 2)
            && Open(IfHead(c, o))
  {
  }

  lemma IfMiddleEmpty(c: Builder, n: BlockId)
    requires EmptyAt(c, n + 1) && EmptyAt(c, n + 2) && c.cur != n + 1 && c.cur != n + 2
    ensures EmptyAt(IfMiddle(c, n), n + 1) && EmptyAt(IfMiddle(c, n), n + 2) && Open(IfMiddle(c, n))
  {
  }

  lemma IfTailEmpty(c: Builder, m: BlockId)
    requires EmptyAt(c, m) && c.cur != m
    ensures EmptyAt(IfTail(c, m), m) && Open(IfTail(c, m))
  {
  }

  /** Generating a block touches no older block but the current one. */
  lemma BlockKeepsEmpty(ss: seq<Stmt>, c: Builder, b: BlockId)
    requires EmptyAt(c, b) && b != c.cur
    ensures EmptyAt(GenBlock(ss, c).0, b) && GenBlock(ss, c).0.cur != b
    ensures GenBlock(ss, c).0.cur == c.cur || GenBlock(ss, c).0.cur >= |c.blocks|
  {
    BlockGrew(ss, c);
  }

  lemma ThenStartEmpty(s: Stmt, c: Builder)
    requires s.IfStmt? && GenExpr(s.cond, c).1.Some?
    ensures Open(ThenStart(s, c))
    ensures EmptyAt(ThenStart(s, c), |c.blocks|)
    ensures EmptyAt(ThenStart(s, c), |c.blocks| + 1) && EmptyAt(ThenStart(s, c), |c.blocks| + 2)
  {
    hide IfHead, GenExpr, EmptyAt, Open;
    IfHeadEmpty(GenExpr(s.cond, c).0, GenExpr(s.cond, c).1.value);
  }

  lemma ThenEmptyBlocks(s: Stmt, c: Builder)
    requires s.IfStmt? && GenExpr(s.cond, c).1.Some?
    ensures EmptyAt(ThenEnd(s, c), |c.blocks| + 1) && EmptyAt(ThenEnd(s, c), |c.blocks| + 2)
    ensures ThenEnd(s, c).cur == |c.blocks| || ThenEnd(s, c).cur > |c.blocks| + 2
  {
    hide ThenStart, GenBlock, GenExpr, EmptyAt, Open;
    ThenStartEmpty(s, c);
    BlockKeepsEmpty(s.thn, ThenStart(s, c), |c.blocks| + 1);
    BlockKeepsEmpty(s.thn, ThenStart(s, c), |c.blocks| + 2);
  }

  lemma ElseStartEmpty(s: Stmt, c: Builder)
    requires s.IfStmt? && GenExpr(s.cond, c).1.Some?
    ensures Open(ElseStart(s, c))
    ensures EmptyAt(ElseStart(s, c), |c.blocks| + 1) && EmptyAt(ElseStart(s, c), |c.blocks| + 2)
  {
    hide ThenEnd, IfMiddle, GenExpr, EmptyAt, Open;
    ThenEmptyBlocks(s, c);
    IfMiddleEmpty(ThenEnd(s, c), |c.blocks|);
  }

  /** The block behind the if stays empty until both branches are generated. */
  lemma ElseEmptyBlocks(s: Stmt, c: Builder)
    requires s.IfStmt? && GenExpr(s.cond, c).1.Some?
    ensures EmptyAt(ElseEnd(s, c), |c.blocks| + 2)
    ensures ElseEnd(s, c).cur == |c.blocks| + 1 || ElseEnd(s, c).cur > |c.blocks| + 2
    ensures Open(IfTail(ElseEnd(s, c), |c.blocks| + 2))
            && EmptyAt(IfTail(ElseEnd(s, c), |c.blocks| + 2), |c.blocks| + 2)
  {
    hide *;
    ElseStartEmpty(s, c);
    ElseEndUnfold(s, c);
    if s.els.Else? {
      BlockKeepsEmpty(s.els.stmts, ElseStart(s, c), |c.blocks| + 2);
    }
    IfTailEmpty(ElseEnd(s, c), |c.blocks| + 2);
  }

  /** The if gets as far as its merge block. */
  predicate Completed(els: Else) {
    els.NoElse? || EndsInValue(els.stmts)
  }

  lemma {:induction false} IfShape(s: Stmt, c: Builder, names: set<string>)
    requires s.IfStmt? && StmtOk(s, names) && AllBound(c.scopes, c.next, names) && Open(c)
    ensures Open(GenIf(s, c).0) && GenIf(s, c).1.None?
    ensures GenExpr(s.cond, c).1.Some?
    ensures GenBlock(s.thn, ThenStart(s, c)).1.Some?
    ensures Open(ThenEnd(s, c)) <==> !EndsInReturn(s.thn)
    ensures Open(ElseEnd(s, c)) <==> !EndsInReturn(ElseOf(s.els))
    ensures AllBound(ElseStart(s, c).scopes, ElseStart(s, c).next, names)
    ensures Completed(s.els) ==> GenIf(s, c).0 == IfTail(ElseEnd(s, c), |c.blocks| + 2)
    ensures !Completed(s.els) ==> GenIf(s, c).0 == ElseEnd(s, c)
    decreases s, 0
  {
    hide GenExpr, GenStmt, Open, AllBound, IfHead, IfMiddle;
    ExprGenerated(s.cond, c, names);
    ThenStartEmpty(s, c);
    ElseStartEmpty(s, c);
    ElseEmptyBlocks(s, c);
    ThenStartBound(s, c, names);
    BlockShape(s.thn, ThenStart(s, c), names);
    ElseStartBound(s, c, names);
    if s.els.Else? {
      BlockShape(s.els.stmts, ElseStart(s, c), names);
    }
  }

  lemma ThenStartBound(s: Stmt, c: Builder, names: set<string>)
    requires s.IfStmt? && GenExpr(s.cond, c).1.Some? && AllBound(c.scopes, c.next, names)
    ensures AllBound(ThenStart(s, c).scopes, ThenStart(s, c).next, names)
    ensures ThenStart(s, c).scopes == c.scopes && c.next <= ThenStart(s, c).next
  {
    var (c1, o) := GenExpr(s.cond, c);
    IfHeadGrew(c1, o.value);
    hide GenExpr, IfHead;
  }

  lemma ElseStartBound(s: Stmt, c: Builder, names: set<string>)
    requires s.IfStmt? && GenExpr(s.cond, c).1.Some? && AllBound(c.scopes, c.next, names)
    requires DeclaredIn(s.thn) !! names
    ensures AllBound(ElseStart(s, c).scopes, ElseStart(s, c).next, names)
    ensures SameOutside(c.scopes, ElseStart(s, c).scopes, DeclaredIn(s.thn)) && c.next <= ElseStart(s, c).next
  {
    ThenStartBound(s, c, names);
    var a := ThenStart(s, c);
    BlockGrew(s.thn, a);
    BlockScopes(s.thn, a);
    assert ElseStart(s, c).next == ThenEnd(s, c).next;
    hide ThenStart, GenBlock, GenExpr, GetValue;
    AllBoundKept(a.scopes, a.next, ElseStart(s, c).scopes, ElseStart(s, c).next, names, DeclaredIn(s.thn));
  }

  lemma {:induction false} BlockShape(ss: seq<Stmt>, c: Builder, names: set<string>)
    requires BlockOk(ss, names) && AllBound(c.scopes, c.next, names) && Open(c)
    ensures Open(GenBlock(ss, c).0) <==> !EndsInReturn(ss)
    ensures GenBlock(ss, c).1.Some? <==> EndsInValue(ss)
    ensures AllBound(GenBlock(ss, c).0.scopes, GenBlock(ss, c).0.next, AfterAll(ss, names))
    decreases ss, 2
  {
    if ss != [] {
      StmtShape(ss[0], c, names);
      if |ss| > 1 {
        BlockShape(ss[1..], GenStmt(ss[0], c).0, After(ss[0], names));
      } else {
        assert AfterAll(ss, names) == After(ss[0], names);
      }
    }
  }
}
