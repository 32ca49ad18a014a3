/**
  Where the code generator and a natural reading of the language part, each with
  the exact condition under which they agree.
*/
module ThlangLimits {
  import opened Wrappers
  import opened TwosComplement
  import opened ThlangAst
  import opened ThlangSemantics
  import opened ThlangIr
  import opened ThlangCodeGen
  import opened ThlangStructure
  import opened ThlangShape
  import opened ThlangLoopCorrect
  import opened ThlangFunctionCorrect
  import opened ThlangGraph
  import opened ThlangLoopGraph

  // ----- the branches of an if -----

  /** An if whose parts are supported, with nonempty branches that may end in any way. */
  predicate PartsOk(s: Stmt, names: set<string>) {
    && s.IfStmt? && TypeOf(s.cond, names).Some? && Declared(s) !! names
    && s.thn != [] && BlockOk(s.thn, names)
    && (s.els.Else? ==> s.els.stmts != [] && BlockOk(s.els.stmts, names))
  }

  lemma MissingTarget(d: Builder, b: BlockId, k: nat, t: BlockId)
    requires b < |d.blocks| && k < |d.blocks[b]| && t in Targets(d.blocks[b][k]) && t !in d.layout
    ensures !TargetsInserted(d)
  {
  }

  /** The branch instruction of the if, and where it stands. */
  lemma ThenStartBranch(s: Stmt, c: Builder, n: nat) returns (k: nat)
    requires s.IfStmt? && GenExpr(s.cond, c).1.Some? && n == |c.blocks|
    ensures k < |ThenStart(s, c).blocks[c.cur]| && n + 1 in Targets(ThenStart(s, c).blocks[c.cur][k])
  {
    hide GenExpr;
    k := |ThenStart(s, c).blocks[c.cur]| - 1;
  }

  /** A then branch that ends in an if: the else block is a target, but is never inserted. */
  lemma ThenEndsInIf(s: Stmt, c: Builder, names: set<string>, entry: Entry, n: nat)
    requires PartsOk(s, names) && EndsInIf(s.thn) && Ready(c, entry, {}, names) && n == |c.blocks|
    ensures !TargetsInserted(GenIf(s, c).0)
  {
    hide Good, InstrGood, Slots, TypeOf, GenExpr, ThenStart, Available, HasTerminator, BlockOk, Open, AllBound;
    hide TargetsInserted, Ready;
    var known, e1 := ThenReady(s, c, names, entry, {});
    SlotsBound(ThenStart(s, c), e1, names) by { ReadyParts(ThenStart(s, c), e1, {} + {n + 1}, names); }
    ReadyParts(ThenStart(s, c), e1, {} + {n + 1}, names);
    ReadyParts(c, entry, {}, names);
    BlockShape(s.thn, ThenStart(s, c), names);
    var k := ThenStartBranch(s, c, n);
    var d := GenBlock(s.thn, ThenStart(s, c)).0;
    assert GenIf(s, c).0 == d by { GenIfStops(s, c); }
    BlockGrew(s.thn, ThenStart(s, c));
    BlockLeavesOut(s.thn, ThenStart(s, c), n + 1);
    hide GenBlock, GenIf;
    assert ThenStart(s, c).blocks[c.cur] <= d.blocks[c.cur];
    MissingTarget(d, c.cur, k, n + 1);
  }

  lemma GenIfStops(s: Stmt, c: Builder)
    requires s.IfStmt? && GenExpr(s.cond, c).1.Some? && GenBlock(s.thn, ThenStart(s, c)).1.None?
    ensures GenIf(s, c).0 == GenBlock(s.thn, ThenStart(s, c)).0
  {
  }

  lemma GenIfStopsInElse(s: Stmt, c: Builder)
    requires s.IfStmt? && GenExpr(s.cond, c).1.Some? && GenBlock(s.thn, ThenStart(s, c)).1.Some?
    requires s.els.Else? && GenBlock(s.els.stmts, ElseStart(s, c)).1.None?
    ensures GenIf(s, c).0 == GenBlock(s.els.stmts, ElseStart(s, c)).0
  {
  }

  /** The jump from an open then branch to the merge block. */
  lemma ElseStartJump(s: Stmt, c: Builder, n: nat) returns (b: BlockId, k: nat)
    requires s.IfStmt? && GenExpr(s.cond, c).1.Some? && Open(ThenEnd(s, c)) && n == |c.blocks|
    requires n + 2 !in ThenEnd(s, c).layout
    ensures b < |ElseStart(s, c).blocks| && k < |ElseStart(s, c).blocks[b]|
    ensures n + 2 in Targets(ElseStart(s, c).blocks[b][k]) && n + 2 !in ElseStart(s, c).layout
  {
    hide GenExpr, ThenEnd;
    b := ThenEnd(s, c).cur;
    k := |ThenEnd(s, c).blocks[b]|;
  }

  lemma ElseStartShape(s: Stmt, c: Builder, names: set<string>, entry: Entry, n: nat)
    requires PartsOk(s, names) && EndsInValue(s.thn) && !EndsInReturn(s.thn) && Ready(c, entry, {}, names)
             && n == |c.blocks|
    ensures GenExpr(s.cond, c).1.Some? && GenBlock(s.thn, ThenStart(s, c)).1.Some?
    ensures Open(ThenEnd(s, c)) && n + 2 !in ThenEnd(s, c).layout
    ensures AllBound(ElseStart(s, c).scopes, ElseStart(s, c).next, names) && Open(ElseStart(s, c))
  {
    hide Good, InstrGood, Slots, TypeOf, GenExpr, ThenStart, ElseStart, Available, HasTerminator, BlockOk, Open;
    hide AllBound, Ready, GenBlock;
    var known, e1 := ThenReady(s, c, names, entry, {});
    ReadyParts(ThenStart(s, c), e1, {} + {n + 1}, names);
    ReadyParts(c, entry, {}, names);
    SlotsBound(ThenStart(s, c), e1, names);
    SlotsBound(c, entry, names);
    BlockShape(s.thn, ThenStart(s, c), names);
    BlockLeavesOut(s.thn, ThenStart(s, c), n + 2);
    ElseStartBound(s, c, names);
    ElseStartEmpty(s, c);
  }

  /** An else branch that ends in an if, after a then branch that goes on: the merge block is never inserted. */
  lemma ElseEndsInIf(s: Stmt, c: Builder, names: set<string>, entry: Entry, n: nat)
    requires PartsOk(s, names) && EndsInValue(s.thn) && !EndsInReturn(s.thn) && Ready(c, entry, {}, names)
             && n == |c.blocks|
    requires s.els.Else? && EndsInIf(s.els.stmts)
    ensures !TargetsInserted(GenIf(s, c).0)
  {
    hide Good, InstrGood, Slots, TypeOf, GenExpr, ThenStart, ElseStart, ThenEnd, Available, HasTerminator, BlockOk;
    hide Open, AllBound, Ready, TargetsInserted;
    ElseStartShape(s, c, names, entry, n);
    BlockShape(s.els.stmts, ElseStart(s, c), names);
    var d := GenBlock(s.els.stmts, ElseStart(s, c)).0;
    assert GenIf(s, c).0 == d by { GenIfStopsInElse(s, c); }
    var b, k := ElseStartJump(s, c, n);
    BlockGrew(s.els.stmts, ElseStart(s, c));
    BlockLeavesOut(s.els.stmts, ElseStart(s, c), n + 2);
    hide GenBlock, GenIf;
    assert ElseStart(s, c).blocks[b] <= d.blocks[b];
    MissingTarget(d, b, k, n + 2);
  }

  /**
    When the graph of an if is complete. Every block the if jumps to gets inserted
    exactly when no branch ends in an if, save for an else branch behind a then branch
    that returns. Chained `else if` produces the excluded shape.
  */
  lemma IfCompleteIff(s: Stmt, c: Builder, names: set<string>, entry: Entry)
    requires PartsOk(s, names) && Ready(c, entry, {}, names)
    ensures TargetsInserted(GenIf(s, c).0) <==> BranchesOk(s.thn, s.els)
  {
    if BranchesOk(s.thn, s.els) {
      assert StmtOk(s, names);
      var e := IfGraph(s, c, names, entry, {});
      GoodTargets(GenIf(s, c).0, e);
    } else if EndsInIf(s.thn) {
      ThenEndsInIf(s, c, names, entry, |c.blocks|);
    } else {
      ElseEndsInIf(s, c, names, entry, |c.blocks|);
    }
  }

  /**
    The `else if` of the grammar (src/parser.y) puts the second if alone in the else
    block. Unless the first branch returns, the jump behind it has no block to go to.
  */
  lemma ElseIfIncomplete(cond: Expr, thn: seq<Stmt>, second: Stmt, c: Builder, names: set<string>, entry: Entry)
    requires second.IfStmt? && PartsOk(IfStmt(cond, thn, Else([second])), names) && Ready(c, entry, {}, names)
    ensures TargetsInserted(GenIf(IfStmt(cond, thn, Else([second])), c).0) <==> EndsInReturn(thn)
  {
    IfCompleteIff(IfStmt(cond, thn, Else([second])), c, names, entry);
  }

  /** An `else if` over one variable, generated in a function of two parameters: its merge block is missing. */
  lemma ElseIfExample()
    ensures var assign := ExprStmt(Assign("ff", Name("a")));
            var second := IfStmt(IntLit(1), [assign], NoElse);
            var c := GenParams(["a", "ff"], 0, EntryCtx(0, []));
            !TargetsInserted(GenIf(IfStmt(Name("a"), [assign], Else([second])), c).0)
  {
    var assign := ExprStmt(Assign("ff", Name("a")));
    var second := IfStmt(IntLit(1), [assign], NoElse);
    var params, names := ["a", "ff"], {"a", "ff"};
    ExampleParts(assign, second, names);
    hide *;
    var c0 := EntryCtx(0, []);
    EntryReady();
    ParamsGraph(params, 0, c0, {}, [{}], {});
    assert params[0..] == params && {} + ParamNames(params) == names by { ExampleNames(); }
    ElseIfIncomplete(Name("a"), [assign], second, GenParams(params, 0, c0), names, [{}]);
    assert !EndsInReturn([assign]) by { NoReturnInExample(assign); }
  }

  lemma ExampleNames()
    ensures ParamNames(["a", "ff"]) == {"a", "ff"}
  {
  }

  lemma EntryReady()
    ensures Ready(EntryCtx(0, []), [{}], {}, {}) && FinishedBut(EntryCtx(0, []), {EntryCtx(0, []).cur})
  {
  }

  lemma NoReturnInExample(s: Stmt)
    requires s.ExprStmt?
    ensures !EndsInReturn([s])
  {
  }

  lemma ExampleParts(assign: Stmt, second: Stmt, names: set<string>)
    requires assign == ExprStmt(Assign("ff", Name("a"))) && second == IfStmt(IntLit(1), [assign], NoElse)
    requires names == {"a", "ff"}
    ensures second.IfStmt? && PartsOk(IfStmt(Name("a"), [assign], Else([second])), names)
  {
    assert StmtOk(assign, names);
    assert [assign][1..] == [] && [second][1..] == [];
    assert BlockOk([assign], names);
    assert DeclaredIn([assign]) == {};
    assert Declared(second) == {};
    assert StmtOk(second, names);
    assert BlockOk([second], names);
    assert DeclaredIn([second]) == Declared(second) + DeclaredIn([]);
  }

  // ----- the body of a for -----

  /** A block with an if in it ends in another block than it began in, and that block is inserted. */
  lemma {:induction false} BlockMoves(ss: seq<Stmt>, c: Builder, names: set<string>)
    requires BlockOk(ss, names) && AllBound(c.scopes, c.next, names) && Open(c) && c.cur in c.layout
    ensures GenBlock(ss, c).0.cur in GenBlock(ss, c).0.layout
    ensures GenBlock(ss, c).0.cur == c.cur || GenBlock(ss, c).0.cur >= |c.blocks|
    ensures (exists i :: 0 <= i < |ss| && ss[i].IfStmt?) ==> GenBlock(ss, c).0.cur >= |c.blocks|
    decreases ss, 2
  {
    hide AllBound, Open, GenStmt, StmtOk;
    if ss != [] {
      StmtMoves(ss[0], c, names);
      StmtShape(ss[0], c, names);
      StmtGrew(ss[0], c);
      if |ss| > 1 {
        assert forall i :: 0 < i < |ss| ==> ss[i] == ss[1..][i - 1];
        BlockMoves(ss[1..], GenStmt(ss[0], c).0, After(ss[0], names));
      }
    }
  }

  lemma {:induction false} StmtMoves(s: Stmt, c: Builder, names: set<string>)
    requires StmtOk(s, names) && AllBound(c.scopes, c.next, names) && Open(c) && c.cur in c.layout
    ensures GenStmt(s, c).0.cur in GenStmt(s, c).0.layout
    ensures if s.IfStmt? then GenStmt(s, c).0.cur >= |c.blocks| else GenStmt(s, c).0.cur == c.cur
    decreases s, 1
  {
    if s.IfStmt? {
      IfMoves(s, c, names);
    }
  }

  lemma {:induction false} IfMoves(s: Stmt, c: Builder, names: set<string>)
    requires s.IfStmt? && StmtOk(s, names) && AllBound(c.scopes, c.next, names) && Open(c)
    ensures GenIf(s, c).0.cur in GenIf(s, c).0.layout && GenIf(s, c).0.cur >= |c.blocks|
    decreases s, 0
  {
    hide AllBound, Open, GenStmt, GenExpr, ElseStart, GenIf;
    IfShape(s, c, names);
    if !Completed(s.els) {
      ElseStartInserted(s, c);
      ElseStartEmpty(s, c);
      BlockMoves(s.els.stmts, ElseStart(s, c), names);
    }
  }

  lemma ElseStartInserted(s: Stmt, c: Builder)
    requires s.IfStmt? && GenExpr(s.cond, c).1.Some?
    ensures ElseStart(s, c).cur in ElseStart(s, c).layout
  {
    hide GenExpr, ThenEnd;
  }

  /**
    When the graph of a for is complete. The jump from the body to the increment is missing unless the block in which
    the body ends is the one in which it began, which of the supported bodies are exactly those without an if.
  */
  lemma ForCompleteIff(s: Stmt, c: Builder, names: set<string>, entry: Entry)
    requires s.ForStmt? && PartOk(s.start, names) && WhileOk(s.cond, s.body, names) && PartOk(s.increment, names)
    requires Ready(c, entry, {}, names) && FinishedBut(c, {c.cur})
    ensures AllFinished(GenFor(s, c).0) <==> StraightLine(s.body)
  {
    if StraightLine(s.body) {
      var e := ForGraph(s, c, names, entry, {});
    } else {
      BodyHasIf(s.body, names);
      var known, e1 := ForBodyReady(s, c, names, entry, {}, |c.blocks|);
      ForBodyMoves(s, c, names, e1);
      ForLeavesOpen(s, c);
    }
  }

  lemma {:induction false} BodyHasIf(body: seq<Stmt>, names: set<string>)
    requires BlockOk(body, names) && NoReturns(body) && !StraightLine(body)
    ensures exists i :: 0 <= i < |body| && body[i].IfStmt?
  {
    if !body[0].IfStmt? {
      assert forall i :: 0 < i < |body| ==> body[i] == body[1..][i - 1];
      BodyHasIf(body[1..], After(body[0], names));
    }
  }

  /** The body ends in an inserted block behind the five of the loop, which is open. */
  lemma ForBodyMoves(s: Stmt, c: Builder, names: set<string>, entry: Entry)
    requires s.ForStmt? && GenExpr(s.cond, ForInit(s.start, c)).1.Some? && LoopBodyOk(s.body, names)
    requires Ready(ForBody(s, c), entry, {}, names) && ForBody(s, c).layout == ForBlocks(c).layout
    requires exists i :: 0 <= i < |s.body| && s.body[i].IfStmt?
    ensures var d := ForBodyEnd(s, c);
            && d.cur in d.layout && d.cur >= |c.blocks| + 5 && Open(d)
            && HasTerminator(d.blocks[|c.blocks| + 2])
  {
    hide GenExpr, ForInit, ForBody, ForBlocks, GenBlock, AllBound, Slots, Good, InstrGood, HasTerminator, BlockOk, Open;
    hide Available;
    var b := ForBody(s, c);
    ForLayouts(s.start, c);
    assert b.cur in b.layout;
    SlotsBound(b, entry, names);
    NoReturnsAtEnd(s.body);
    BlockShape(s.body, b, names);
    BlockMoves(s.body, b, names);
    var e := BlockGraph(s.body, b, names, entry, {});
    assert ForBodyEnd(s, c) == GenBlock(s.body, b).0;
  }

  /** Nothing is emitted there any more. */
  lemma ForLeavesOpen(s: Stmt, c: Builder)
    requires s.ForStmt? && GenExpr(s.cond, ForInit(s.start, c)).1.Some?
    requires var d := ForBodyEnd(s, c);
             && d.cur in d.layout && d.cur >= |c.blocks| + 5 && Open(d)
             && HasTerminator(d.blocks[|c.blocks| + 2])
    ensures !AllFinished(GenFor(s, c).0)
  {
    hide GenExpr, ForInit, ForBodyEnd, GenFor, HasTerminator, ForIter, ForIterEnd;
    var d := ForBodyEnd(s, c);
    ForIterSame(s, c);
    ForIterEndKeeps(s, c);
    ForUnfold(s, c);
    assert GenFor(s, c).0.blocks[d.cur] == d.blocks[d.cur];
  }

  lemma ForIterSame(s: Stmt, c: Builder)
    requires s.ForStmt? && GenExpr(s.cond, ForInit(s.start, c)).1.Some?
    requires HasTerminator(ForBodyEnd(s, c).blocks[|c.blocks| + 2])
    ensures ForIter(s, c).blocks == ForBodyEnd(s, c).blocks && ForIter(s, c).layout == ForBodyEnd(s, c).layout
  {
    hide GenExpr, ForInit, ForBodyEnd;
  }

  // ----- operators and conditions -----

  /** `<` is the order of the signed numbers exactly when the operands have the same sign. */
  lemma LessIsSignedIff(a: Int32, b: Int32)
    ensures (UnsignedLess(a, b) <==> a < b) <==> (a < 0 <==> b < 0)
  {
    SignedInvertsToBits(a);
    SignedInvertsToBits(b);
  }

  /** Loops and ifs read a condition alike exactly when it is not a nonzero even number. */
  lemma LoopReadsConditionIff(v: Value)
    ensures (LoopTruth(v) <==> IfTruth(v)) <==> !(v.Num? && v.n % 2 == 0 && v.n != 0)
  {
  }

  /**
    A while whose condition is a nonzero even number is left at once, where an if would take its branch: the generated
    code returns with the store that reached the loop.
  */
  lemma EvenConditionStops(f: Function, args: seq<Int32>, next: nat, outer: seq<Scope>, s: Store)
    requires Supported(f) && |args| == |f.params| && Final(f.body).WhileStmt?
    requires ExecBlock(Front(f.body), BindParams(f.params, args)) == Next(s)
    requires var v := Eval(Final(f.body).cond, s);
             v.Num? && v.n % 2 == 0 && v.n != 0
    ensures IfTruth(Eval(Final(f.body).cond, s))
    ensures exists m: nat :: Agrees(f, next, outer, Run(CodeOf(f, next, outer), Start(args), m), ReturnVoid(s))
  {
    assert ExecFunction(f, args, 0) == Some(ReturnVoid(s));
    hide *;
    CompilerCorrect(f, args, next, outer, ReturnVoid(s));
  }
}
