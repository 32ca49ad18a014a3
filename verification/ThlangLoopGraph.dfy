/**
  Well-formedness of the graph of a whole function: loops, parameters, and the
  theorem that on every path through the blocks each use follows a definition.
*/
module ThlangLoopGraph {
  import opened Wrappers
  import opened ThlangAst
  import opened ThlangSemantics
  import opened ThlangIr
  import opened ThlangCodeGen
  import opened ThlangStructure
  import opened ThlangScopes
  import opened ThlangShape
  import opened ThlangStmtCorrect
  import opened ThlangLoopCorrect
  import opened ThlangFunctionCorrect
  import opened ThlangGraph

  // ----- the conditional branch of a loop -----

  lemma LoopCondGood(c: Builder, o: Operand, entry: Entry, pending: set<BlockId>)
    requires Good(c, entry, pending) && Open(c) && TempsOf(o) <= Available(c, entry)
    ensures Good(EmitLoopCond(c, o).0, entry, pending) && Open(EmitLoopCond(c, o).0)
    ensures Available(c, entry) <= Available(EmitLoopCond(c, o).0, entry)
    ensures TempsOf(EmitLoopCond(c, o).1) <= Available(EmitLoopCond(c, o).0, entry)
  {
    if TypeOfOperand(o) == I1 {
      EmitTempGood(c, ICmp(c.next, NE, o, Const(I1, 0)), entry, pending);
    } else {
      EmitTempGood(c, Trunc(c.next, o), entry, pending);
      var c1 := EmitTemp(c, Trunc(c.next, o));
      EmitTempGood(c1, ICmp(c1.next, NE, Temp(c.next, I1), Const(I1, 0)), entry, pending);
    }
  }

  /** What is available where a loop decides, in terms of the block that decides. */
  function Decision(cond: Expr, c: Builder): seq<Instr> {
    var (c1, o) := GenExpr(cond, c);
    if o.None? then [] else EmitLoopCond(c1, o.value).0.blocks[c.cur]
  }

  /** The test of a loop, ending its block. */
  lemma TestGood(cond: Expr, c: Builder, body: BlockId, after: BlockId, names: set<string>, entry: Entry,
                 pending: set<BlockId>)
    requires TypeOf(cond, names).Some? && Slots(c, entry, names) && Good(c, entry, pending) && Open(c)
    requires body < |entry| && after < |entry|
    requires entry[body] <= entry[c.cur] + Defs(Decision(cond, c))
             && entry[after] <= entry[c.cur] + Defs(Decision(cond, c))
    requires (body in c.layout || body in pending) && (after in c.layout || after in pending)
    ensures GenExpr(cond, c).1.Some?
    ensures Good(EmitLoopBranch(GenExpr(cond, c).0, GenExpr(cond, c).1.value, body, after), entry, pending)
    ensures HasTerminator(EmitLoopBranch(GenExpr(cond, c).0, GenExpr(cond, c).1.value, body, after).blocks[c.cur])
    ensures Available(c, entry) <= entry[c.cur] + Defs(Decision(cond, c))
  {
    hide Good, InstrGood, Slots, GenExpr, EmitLoopCond, TypeOf, Open;
    ExprGood(cond, c, names, entry, pending);
    var (c1, o) := GenExpr(cond, c);
    LoopCondGood(c1, o.value, entry, pending);
    LoopCondFacts(c1, o.value);
    var (c2, b) := EmitLoopCond(c1, o.value);
    assert Available(c2, entry) == entry[c.cur] + Defs(Decision(cond, c));
    hide Available, Decision;
    EmitGood(c2, CondBr(b, body, after), entry, pending);
    EmittedTerminator(c2, CondBr(b, body, after));
  }

  lemma LoopCondFacts(c: Builder, o: Operand)
    ensures EmitLoopCond(c, o).0.layout == c.layout && EmitLoopCond(c, o).0.cur == c.cur
    ensures |EmitLoopCond(c, o).0.blocks| == |c.blocks|
  {
  }

  /** Opening a scope on top of the slots, in an empty block entered with them. */
  lemma EnterSlots(c: Builder, e1: Entry, d: Builder, e2: Entry, names: set<string>)
    requires Slots(c, e1, names) && |e2| == |d.blocks| && d.blocks[d.cur] == [] && Available(c, e1) <= e2[d.cur]
    requires d.scopes == c.scopes + [map[]] && c.next <= d.next
    ensures Slots(d, e2, names) && Available(d, e2) == e2[d.cur]
  {
    forall x | x in names
      ensures GetValue(d.scopes, x) == GetValue(c.scopes, x)
    {
      EmptyScopeLookup(c.scopes, x);
    }
  }

  // ----- while -----

  lemma WhileHeadGood(c: Builder, names: set<string>, entry: Entry, known: set<nat>, pending: set<BlockId>)
    requires Ready(c, entry, pending, names)
    ensures Good(WhileHead(c), entry + [known] + [known], pending + {|c.blocks| + 1})
    ensures Slots(WhileHead(c), entry + [known] + [known], names) && Open(WhileHead(c))
    ensures Available(WhileHead(c), entry + [known] + [known]) == Available(c, entry)
    ensures WhileHead(c).layout == c.layout + [|c.blocks|]
  {
    CreateGood(c, true, entry, known, pending);
    CreateGood(CreateBlock(c, true), false, entry + [known], known, pending);
    GoodSame(WhileHead(c), WhileHead(c), entry + [known] + [known], pending, pending + {|c.blocks| + 1});
    assert Open(WhileHead(c));
    hide Good, InstrGood, Available;
    SameScopeSlots(c, entry, WhileHead(c), entry + [known] + [known], names);
  }

  lemma WhileBodyReady(s: Stmt, c: Builder, names: set<string>, entry: Entry, pending: set<BlockId>)
    returns (known: set<nat>, e1: Entry)
    requires s.WhileStmt? && TypeOf(s.cond, names).Some? && Ready(c, entry, pending, names)
    ensures Available(c, entry) <= known && e1 == entry + [known] + [known] && |e1| == |c.blocks| + 2
    ensures GenExpr(s.cond, WhileHead(c)).1.Some?
    ensures Ready(WhileBody(s, c), e1, pending + {|c.blocks| + 1}, names)
    ensures Available(WhileBody(s, c), e1) == known && HasTerminator(WhileBody(s, c).blocks[c.cur])
    ensures WhileBody(s, c).layout == c.layout + [|c.blocks|]
  {
    hide Good, InstrGood, Available, GenExpr, EmitLoopBranch, WhileBody, WhileHead, TypeOf, Ready, Slots, Open, EmptyAt;
    hide HasTerminator, Decision;
    var d, n, p := WhileHead(c), |c.blocks|, pending + {|c.blocks| + 1};
    ReadyParts(c, entry, pending, names);
    known := entry[c.cur] + Defs(Decision(s.cond, d));
    e1 := entry + [known] + [known];
    WhileHeadGood(c, names, entry, known, pending);
    TestGood(s.cond, d, n, n + 1, names, e1, p);
    var b := EmitLoopBranch(GenExpr(s.cond, d).0, GenExpr(s.cond, d).1.value, n, n + 1);
    WhileBodyIs(s, c);
    GoodSame(b, WhileBody(s, c), e1, p, p);
    WhileBodyEmpty(s, c);
    EmptyBlock(WhileBody(s, c), n);
    EnterSlots(c, entry, WhileBody(s, c), e1, names);
    MakesReady(WhileBody(s, c), e1, p, names);
  }

  lemma WhileBodyIs(s: Stmt, c: Builder)
    requires s.WhileStmt? && GenExpr(s.cond, WhileHead(c)).1.Some?
    ensures var d := WhileHead(c);
            var b := EmitLoopBranch(GenExpr(s.cond, d).0, GenExpr(s.cond, d).1.value, |c.blocks|, |c.blocks| + 1);
            WhileBody(s, c).blocks == b.blocks && WhileBody(s, c).layout == b.layout == d.layout
  {
    LoopBranchFacts(s.cond, WhileHead(c), |c.blocks|, |c.blocks| + 1);
    hide GenExpr, EmitLoopBranch, WhileHead;
  }

  lemma EmptyBlock(c: Builder, b: BlockId)
    requires EmptyAt(c, b)
    ensures b < |c.blocks| && c.blocks[b] == []
  {
  }

  /** Back in the scope of the statement after the body, the condition can be generated again. */
  lemma RetestReady(s: Stmt, c: Builder, names: set<string>, entry: Entry, known: set<nat>, e2: Entry,
                    pending: set<BlockId>)
    requires s.WhileStmt? && TypeOf(s.cond, names).Some? && Ready(c, entry, pending, names)
    requires GenExpr(s.cond, WhileHead(c)).1.Some? && Open(WhileBodyEnd(s, c))
    requires |e2| == |WhileBodyEnd(s, c).blocks| && Good(WhileBodyEnd(s, c), e2, pending + {|c.blocks| + 1})
    requires Available(c, entry) <= known <= Available(WhileBodyEnd(s, c), e2)
    ensures Slots(WhileRetest(s, c), e2, names) && Good(WhileRetest(s, c), e2, pending + {|c.blocks| + 1})
            && Open(WhileRetest(s, c))
    ensures Available(WhileRetest(s, c), e2) == Available(WhileBodyEnd(s, c), e2)
    ensures WhileRetest(s, c).layout == WhileBodyEnd(s, c).layout && WhileRetest(s, c).cur == WhileBodyEnd(s, c).cur
  {
    SlotsBound(c, entry, names);
    WhileStages(s, c, names);
    GoodSame(WhileBodyEnd(s, c), WhileRetest(s, c), e2, pending + {|c.blocks| + 1}, pending + {|c.blocks| + 1});
    assert Available(WhileRetest(s, c), e2) == Available(WhileBodyEnd(s, c), e2);
    hide Good, InstrGood, Available, GenExpr, WhileBodyEnd, WhileHead;
    SameScopeSlots(c, entry, WhileRetest(s, c), e2, names);
  }

  /** The exit block of a loop: empty until it receives its return. */
  lemma ExitGood(c: Builder, after: BlockId, entry: Entry, pending: set<BlockId>)
    requires EmptyAt(c, after) && Good(c, entry, pending)
    ensures Good(LoopExit(c, after), entry, pending) && HasTerminator(LoopExit(c, after).blocks[after])
    ensures LoopExit(c, after).blocks == c.blocks[after := [RetVoid]] && LoopExit(c, after).layout == c.layout
  {
    var d := SetInsertPoint(c, after);
    GoodSame(c, d, entry, pending, pending);
    EmitGood(d, RetVoid, entry, pending);
    assert [] + [RetVoid] == [RetVoid];
  }

  /** Every block inserted in the function has a terminator. */
  ghost predicate AllFinished(c: Builder) {
    forall b :: b in c.layout ==> b < |c.blocks| && HasTerminator(c.blocks[b])
  }

  /** Blocks inserted so far have terminators, except the one at the insertion point and those listed. */
  ghost predicate FinishedBut(c: Builder, open: set<BlockId>) {
    forall b :: b in c.layout && b !in open ==> b < |c.blocks| && HasTerminator(c.blocks[b])
  }

  /** A block generated in a builder that is finished elsewhere leaves it finished elsewhere. */
  lemma BlockFinishes(ss: seq<Stmt>, c: Builder, open: set<BlockId>)
    requires FinishedBut(c, open + {c.cur}) && Finished(c, GenBlock(ss, c).0)
    requires c.cur !in open && forall b :: b in open ==> b < |c.blocks|
    ensures FinishedBut(GenBlock(ss, c).0, open + {GenBlock(ss, c).0.cur}) && GenBlock(ss, c).0.cur !in open
    ensures forall b :: b in open ==> GenBlock(ss, c).0.blocks[b] == c.blocks[b]
  {
    BlockGrew(ss, c);
    var d := GenBlock(ss, c).0;
    hide GenBlock, HasTerminator;
    forall k | 0 <= k < |d.layout|
      ensures d.layout[k] !in open + {d.cur} ==> d.layout[k] < |d.blocks| && HasTerminator(d.blocks[d.layout[k]])
    {
      var b := d.layout[k];
      if b < |c.blocks| && b !in open + {d.cur} && b != c.cur {
        assert k < |c.layout| && c.layout[k] == b && b in c.layout;
        assert d.blocks[b] == c.blocks[b];
      }
    }
  }

  lemma BlockKeepsInserted(ss: seq<Stmt>, c: Builder, b: BlockId)
    requires b in c.layout
    ensures b in GenBlock(ss, c).0.layout
  {
    BlockGrew(ss, c);
    hide GenBlock;
    var k :| 0 <= k < |c.layout| && c.layout[k] == b;
    assert GenBlock(ss, c).0.layout[k] == b;
  }

  lemma {:induction false} WhileGraph(s: Stmt, c: Builder, names: set<string>, entry: Entry, pending: set<BlockId>)
    returns (entry': Entry)
    requires s.WhileStmt? && LoopOk(s, names) && Ready(c, entry, pending, names) && FinishedBut(c, {c.cur})
    ensures |entry'| == |GenWhile(s, c).0.blocks| && entry <= entry' && Good(GenWhile(s, c).0, entry', pending)
    ensures AllFinished(GenWhile(s, c).0)
  {
    hide Good, InstrGood, Available, GenExpr, WhileBody, WhileHead, TypeOf, BlockOk, GenBlock, WhileBodyEnd;
    hide WhileRetest, Slots, GenWhile, EmptyAt, HasTerminator, Finished, EmitLoopBranch, LoopExit, FinishedBut;
    hide AllFinished, Ready, AllBound, Open;
    var n := |c.blocks|;
    ReadyParts(c, entry, pending, names);
    SlotsBound(c, entry, names);
    NoReturnsAtEnd(s.body);
    var known, e1 := WhileBodyReady(s, c, names, entry, pending);
    WhileBodySealed(s, c);
    entry' := BlockGraph(s.body, WhileBody(s, c), names, e1, pending + {n + 1});
    ReadyParts(WhileBody(s, c), e1, pending + {n + 1}, names);
    SlotsBound(WhileBody(s, c), e1, names);
    BlockShape(s.body, WhileBody(s, c), names);
    BodyEndUnfold(s, c);
    BlockFinishes(s.body, WhileBody(s, c), {});
    BlockKeepsInserted(s.body, WhileBody(s, c), n);
    RetestReady(s, c, names, entry, known, entry', pending);
    assert entry'[n] == e1[n] && entry'[n + 1] == e1[n + 1];
    WhileRetestIs(s, c);
    RetestGraph(s, c, names, known, entry', pending);
  }

  lemma WhileRetestIs(s: Stmt, c: Builder)
    requires s.WhileStmt? && GenExpr(s.cond, WhileHead(c)).1.Some?
    ensures var d, e := WhileBodyEnd(s, c), WhileRetest(s, c);
            e.blocks == d.blocks && e.layout == d.layout && e.cur == d.cur
            && (FinishedBut(d, {} + {d.cur}) ==> FinishedBut(e, {} + {e.cur}))
  {
    hide WhileBodyEnd, GenExpr, WhileHead, HasTerminator;
  }

  lemma WhileBodySealed(s: Stmt, c: Builder)
    requires s.WhileStmt? && GenExpr(s.cond, WhileHead(c)).1.Some?
    requires FinishedBut(c, {c.cur}) && HasTerminator(WhileBody(s, c).blocks[c.cur])
    requires WhileBody(s, c).layout == c.layout + [|c.blocks|] && forall b :: b in c.layout ==> b < |c.blocks|
    ensures FinishedBut(WhileBody(s, c), {} + {WhileBody(s, c).cur})
  {
    WhileHeadGrew(c);
    var (c1, o) := GenExpr(s.cond, WhileHead(c));
    ExprGrew(s.cond, WhileHead(c), |c.blocks|);
    LoopEntryGrew(c1, o.value, |c.blocks|, |c.blocks| + 1, |c.blocks|);
    hide WhileHead, GenExpr, LoopEntry, HasTerminator;
  }

  /** The second test, the insertion of the exit block and its return. */
  lemma RetestGraph(s: Stmt, c: Builder, names: set<string>, known: set<nat>, entry: Entry, pending: set<BlockId>)
    requires s.WhileStmt? && TypeOf(s.cond, names).Some? && AllBound(c.scopes, c.next, names)
    requires GenExpr(s.cond, WhileHead(c)).1.Some? && |c.blocks| in WhileRetest(s, c).layout
    requires Slots(WhileRetest(s, c), entry, names) && Open(WhileRetest(s, c))
    requires Good(WhileRetest(s, c), entry, pending + {|c.blocks| + 1})
    requires |c.blocks| + 1 < |entry| && entry[|c.blocks|] == known && entry[|c.blocks| + 1] == known
    requires known <= Available(WhileRetest(s, c), entry)
    requires FinishedBut(WhileRetest(s, c), {} + {WhileRetest(s, c).cur})
    ensures |entry| == |GenWhile(s, c).0.blocks| && Good(GenWhile(s, c).0, entry, pending)
    ensures AllFinished(GenWhile(s, c).0)
  {
    hide GenExpr, EmitLoopBranch, WhileRetest, WhileHead, Good, InstrGood, GenWhile, AllBound, Slots, Available;
    hide LoopExit, TypeOf, EmptyAt, Decision, Open, FinishedBut, HasTerminator, AllFinished;
    var n, d := |c.blocks|, WhileRetest(s, c);
    WhileStages(s, c, names);
    DecisionAvailable(s.cond, d, names, entry, pending + {n + 1});
    TestGood(s.cond, d, n, n + 1, names, entry, pending + {n + 1});
    var (c5, o2) := GenExpr(s.cond, d);
    WhileUnfold(s, c);
    ExprKeepsEmpty(s.cond, d, n + 1);
    LoopEntryEmptyBranch(c5, o2.value, n, n + 1, n + 1);
    LoopBranchFacts(s.cond, d, n, n + 1);
    var e := EmitLoopBranch(c5, o2.value, n, n + 1);
    TestFinishes(d, e);
    WhileEndGood(e, d.cur, n, entry, pending);
    GoodLength(GenWhile(s, c).0, entry, pending);
  }

  lemma GoodLength(c: Builder, entry: Entry, pending: set<BlockId>)
    requires Good(c, entry, pending)
    ensures |entry| == |c.blocks|
  {
  }

  /** A test that ends its block leaves open what was open elsewhere. */
  lemma TestFinishes(c: Builder, d: Builder)
    requires FinishedBut(c, {} + {c.cur}) && d.layout == c.layout && |d.blocks| == |c.blocks|
    requires d.blocks == c.blocks[c.cur := d.blocks[c.cur]]
    ensures FinishedBut(d, {c.cur})
  {
    hide HasTerminator;
  }

  lemma WhileEndGood(c: Builder, home: BlockId, n: BlockId, entry: Entry, pending: set<BlockId>)
    requires Good(c, entry, pending + {n + 1}) && EmptyAt(c, n + 1)
    requires FinishedBut(c, {home}) && home < |c.blocks| && HasTerminator(c.blocks[home])
    ensures Good(LoopExit(InsertInto(c, n + 1), n + 1), entry, pending)
    ensures AllFinished(LoopExit(InsertInto(c, n + 1), n + 1))
  {
    GoodSame(c, InsertInto(c, n + 1), entry, pending + {n + 1}, pending);
    ExitGood(InsertInto(c, n + 1), n + 1, entry, pending);
    hide Good, InstrGood, LoopExit;
  }

  /** A loop test changes its own block and nothing else. */
  lemma LoopBranchFacts(cond: Expr, c: Builder, body: BlockId, after: BlockId)
    requires GenExpr(cond, c).1.Some?
    ensures var d := EmitLoopBranch(GenExpr(cond, c).0, GenExpr(cond, c).1.value, body, after);
            && d.layout == c.layout && d.cur == c.cur && |d.blocks| == |c.blocks|
            && d.blocks == c.blocks[c.cur := d.blocks[c.cur]]
  {
    hide GenExpr;
  }

  lemma DecisionAvailable(cond: Expr, c: Builder, names: set<string>, entry: Entry, pending: set<BlockId>)
    requires TypeOf(cond, names).Some? && Slots(c, entry, names) && Good(c, entry, pending) && Open(c)
    ensures Available(c, entry) <= entry[c.cur] + Defs(Decision(cond, c))
  {
    ExprGood(cond, c, names, entry, pending);
    var (c1, o) := GenExpr(cond, c);
    LoopCondGood(c1, o.value, entry, pending);
    hide GenExpr, EmitLoopCond, TypeOf, Good, InstrGood, Slots;
    LoopCondFacts(c1, o.value);
  }

  // ----- for -----

  lemma CreateReady(c: Builder, names: set<string>, entry: Entry, known: set<nat>, pending: set<BlockId>)
    requires Slots(c, entry, names) && Good(c, entry, pending) && Open(c)
    ensures Slots(CreateBlock(c, true), entry + [known], names) && Good(CreateBlock(c, true), entry + [known], pending)
    ensures Open(CreateBlock(c, true)) && Available(CreateBlock(c, true), entry + [known]) == Available(c, entry)
    ensures |CreateBlock(c, true).blocks| == |c.blocks| + 1 && CreateBlock(c, true).layout == c.layout + [|c.blocks|]
  {
    CreateGood(c, true, entry, known, pending);
    assert Open(CreateBlock(c, true));
    hide Good, InstrGood, Available;
    SameScopeSlots(c, entry, CreateBlock(c, true), entry + [known], names);
  }

  /** The five blocks of a for with their entries. */
  lemma ForBlocksReady(c: Builder, names: set<string>, entry: Entry, k0: set<nat>, k1: set<nat>, k2: set<nat>,
                       pending: set<BlockId>)
    requires Slots(c, entry, names) && Good(c, entry, pending) && Open(c)
    ensures Slots(ForBlocks(c), entry + [k0] + [k1] + [k2] + [k2] + [k2], names)
    ensures Good(ForBlocks(c), entry + [k0] + [k1] + [k2] + [k2] + [k2], pending) && Open(ForBlocks(c))
    ensures Available(ForBlocks(c), entry + [k0] + [k1] + [k2] + [k2] + [k2]) == Available(c, entry)
    ensures ForBlocks(c).layout
            == c.layout + [|c.blocks|] + [|c.blocks| + 1] + [|c.blocks| + 2] + [|c.blocks| + 3] + [|c.blocks| + 4]
  {
    hide Good, InstrGood, Available, Slots, Open, CreateBlock;
    CreateReady(c, names, entry, k0, pending);
    var c1 := CreateBlock(c, true);
    CreateReady(c1, names, entry + [k0], k1, pending);
    var c2 := CreateBlock(c1, true);
    CreateReady(c2, names, entry + [k0] + [k1], k2, pending);
    var c3 := CreateBlock(c2, true);
    CreateReady(c3, names, entry + [k0] + [k1] + [k2], k2, pending);
    var c4 := CreateBlock(c3, true);
    CreateReady(c4, names, entry + [k0] + [k1] + [k2] + [k2], k2, pending);
  }

  /** An unconditional jump, ending its block. */
  lemma JumpGood(c: Builder, b: BlockId, entry: Entry, pending: set<BlockId>)
    requires Good(c, entry, pending) && Open(c) && b < |entry| && entry[b] <= Available(c, entry)
    requires b in c.layout || b in pending
    ensures Good(Emit(c, Br(b)), entry, pending) && HasTerminator(Emit(c, Br(b)).blocks[c.cur])
  {
    EmitGood(c, Br(b), entry, pending);
  }

  lemma PartGood(e: Option<Expr>, c: Builder, names: set<string>, entry: Entry, pending: set<BlockId>)
    requires PartOk(e, names) && Slots(c, entry, names) && Good(c, entry, pending) && Open(c)
    ensures Good(if e.None? then c else GenExpr(e.value, c).0, entry, pending)
    ensures Open(if e.None? then c else GenExpr(e.value, c).0)
    ensures Available(c, entry) <= Available(if e.None? then c else GenExpr(e.value, c).0, entry)
    ensures Slots(if e.None? then c else GenExpr(e.value, c).0, entry, names)
  {
    if e.Some? {
      ExprStmtGood(e.value, c, names, entry, pending);
    }
  }

  /** Moving to an empty block in the same scope. */
  lemma MoveReady(c: Builder, d: Builder, b: BlockId, names: set<string>, e1: Entry, entry: Entry,
                  pending: set<BlockId>, f: Builder)
    requires Good(c, entry, pending) && EmptyAt(d, b) && d.cur == b && d.blocks == c.blocks && d.layout == c.layout
    requires Slots(f, e1, names) && Available(f, e1) <= entry[b] && d.scopes == f.scopes && f.next <= d.next
    ensures Good(d, entry, pending) && Slots(d, entry, names) && Open(d) && Available(d, entry) == entry[b]
  {
    GoodSame(c, d, entry, pending, pending);
    assert Available(d, entry) == entry[b];
    hide Good, InstrGood, Available;
    SameScopeSlots(f, e1, d, entry, names);
  }

  /** From the jump into a for to its condition block. */
  lemma ForInitReady(start: Option<Expr>, c: Builder, names: set<string>, entry: Entry, k1: set<nat>, k2: set<nat>,
                     pending: set<BlockId>)
    returns (e1: Entry)
    requires PartOk(start, names) && Ready(c, entry, pending, names)
    requires k1 == Available(c, entry) + Defs(ForPartEnd(start, c).blocks[|c.blocks|])
    ensures Available(c, entry) <= k1 && |e1| == |c.blocks| + 5 && entry <= e1
    ensures e1 == entry + [Available(c, entry)] + [k1] + [k2] + [k2] + [k2]
    ensures Slots(ForInit(start, c), e1, names) && Good(ForInit(start, c), e1, pending) && Open(ForInit(start, c))
    ensures Available(ForInit(start, c), e1) == k1
    ensures ForInit(start, c).layout == ForBlocks(c).layout
  {
    hide Good, InstrGood, Slots, GenExpr, ForBlocks, ForPart, ForPartEnd, ForInit, EmptyAt, PartOk, Open, HasTerminator;
    hide Ready, Available, Emit;
    ReadyParts(c, entry, pending, names);
    var n, k0 := |c.blocks|, Available(c, entry);
    e1 := entry + [k0] + [k1] + [k2] + [k2] + [k2];
    assert e1[n] == k0 && e1[n + 1] == k1;
    ForBlocksReady(c, names, entry, k0, k1, k2, pending);
    ForPartFacts(c);
    ForPartCur(start, c);
    ForInitUnfold(start, c);
    ForInitFacts(start, c, 1);
    ForLayouts(start, c);
    ForPartNext(start, c);
    JumpGood(ForBlocks(c), n, e1, pending);
    MoveReady(Emit(ForBlocks(c), Br(n)), ForPart(c), n, names, entry, e1, pending, c);
    PartGood(start, ForPart(c), names, e1, pending);
    ForPartEndAvailable(start, c, e1);
    JumpGood(ForPartEnd(start, c), n + 1, e1, pending);
    MoveReady(Emit(ForPartEnd(start, c), Br(n + 1)), ForInit(start, c), n + 1, names, entry, e1, pending, c);
  }

  lemma ForPartCur(start: Option<Expr>, c: Builder)
    ensures ForPartEnd(start, c) == if start.None? then ForPart(c) else GenExpr(start.value, ForPart(c)).0
    ensures ForInit(start, c).cur == |c.blocks| + 1 && ForInit(start, c).scopes == ForPart(c).scopes == c.scopes
  {
    hide GenExpr, ForPart, ForInit;
  }

  lemma ForPartEndAvailable(start: Option<Expr>, c: Builder, entry: Entry)
    requires |entry| == |c.blocks| + 5
    ensures Available(ForPartEnd(start, c), entry)
         == entry[|c.blocks|] + Defs(ForPartEnd(start, c).blocks[|c.blocks|])
  {
    hide ForPartEnd;
  }

  lemma ForLayouts(start: Option<Expr>, c: Builder)
    ensures ForInit(start, c).layout == ForPartEnd(start, c).layout == ForPart(c).layout == ForBlocks(c).layout
    ensures forall b :: |c.blocks| <= b < |c.blocks| + 5 ==> b in ForBlocks(c).layout
  {
    hide GenExpr, ForBlocks;
    forall b | |c.blocks| <= b < |c.blocks| + 5
      ensures b in ForBlocks(c).layout
    {
      assert ForBlocks(c).layout[|c.layout| + b - |c.blocks|] == b;
    }
  }

  lemma ForPartNext(start: Option<Expr>, c: Builder)
    ensures c.next <= ForInit(start, c).next && ForPart(c).next == c.next
    ensures Emit(ForBlocks(c), Br(|c.blocks|)).layout == ForPart(c).layout
    ensures Emit(ForPartEnd(start, c), Br(|c.blocks| + 1)).layout == ForInit(start, c).layout
  {
    hide GenExpr;
  }

  /** The part of a for that runs before its condition leaves only the later blocks open. */
  lemma ForInitSealed(start: Option<Expr>, c: Builder, n: nat)
    requires FinishedBut(c, {c.cur}) && n == |c.blocks| && forall b :: b in c.layout ==> b < |c.blocks|
    ensures FinishedBut(ForInit(start, c), {n + 1, n + 2, n + 3, n + 4})
  {
    hide ForInit, ForBlocks, ForPart, ForPartEnd, GenExpr, HasTerminator, Emit;
    ForInitUnfold(start, c);
    ForPartFacts(c);
    ForLayouts(start, c);
    ForInitGrew(start, c);
    EmittedTerminator(ForBlocks(c), Br(n));
    EmittedTerminator(ForPartEnd(start, c), Br(n + 1));
    ForPartEndKeeps(start, c);
    var d := ForInit(start, c);
    assert HasTerminator(d.blocks[n]) && HasTerminator(d.blocks[c.cur]);
    forall b | b in d.layout && b !in {n + 1, n + 2, n + 3, n + 4}
      ensures b < |d.blocks| && HasTerminator(d.blocks[b])
    {
      assert b in c.layout || b == n;
    }
  }

  lemma ForPartEndKeeps(start: Option<Expr>, c: Builder)
    ensures ForPartEnd(start, c).blocks[c.cur] == ForPart(c).blocks[c.cur]
    ensures Emit(ForPartEnd(start, c), Br(|c.blocks| + 1)).blocks[c.cur] == ForPartEnd(start, c).blocks[c.cur]
  {
    hide GenExpr, ForPart;
  }

  /** The increment and exit blocks of a for, which stay open while its body is generated. */
  function ForLater(n: BlockId): (blocks: set<BlockId>) {
    {n + 3, n + 4}
  }

  /** The condition block of a for with its branch. */
  function ForTest(s: Stmt, c: Builder): (r: Builder)
    requires s.ForStmt? && GenExpr(s.cond, ForInit(s.start, c)).1.Some?
    ensures |r.blocks| == |c.blocks| + 5
  {
    var (c1, o) := GenExpr(s.cond, ForInit(s.start, c));
    EmitLoopBranch(c1, o.value, |c.blocks| + 2, |c.blocks| + 4)
  }

  /** At the start of the body of a for. */
  lemma ForBodyReady(s: Stmt, c: Builder, names: set<string>, entry: Entry, pending: set<BlockId>, n: nat)
    returns (known: set<nat>, e1: Entry)
    requires s.ForStmt? && TypeOf(s.cond, names).Some? && PartOk(s.start, names) && n == |c.blocks|
    requires Ready(c, entry, pending, names) && FinishedBut(c, {c.cur})
    ensures GenExpr(s.cond, ForInit(s.start, c)).1.Some?
    ensures entry <= e1 && |e1| == n + 5 && Available(c, entry) <= e1[n + 1] <= known
    ensures e1[n + 2] == known && e1[n + 3] == known && e1[n + 4] == known
    ensures Ready(ForBody(s, c), e1, pending, names) && Available(ForBody(s, c), e1) == known
    ensures FinishedBut(ForBody(s, c), ForLater(n) + {n + 2}) && ForBody(s, c).layout == ForBlocks(c).layout
  {
    hide Good, InstrGood, Slots, GenExpr, ForInit, ForBlocks, ForPartEnd, Decision, TypeOf, PartOk, HasTerminator;
    hide EmptyAt, EmitLoopBranch, FinishedBut, ForBody, Ready, Available, ForTest, Open;
    ReadyParts(c, entry, pending, names);
    var d := ForInit(s.start, c);
    var k1 := Available(c, entry) + Defs(ForPartEnd(s.start, c).blocks[n]);
    known := k1 + Defs(Decision(s.cond, d));
    e1 := ForInitReady(s.start, c, names, entry, k1, known, pending);
    assert e1[n + 1] == k1 && e1[n + 2] == known && e1[n + 3] == known && e1[n + 4] == known;
    ForTestGood(s, c, names, e1, known, pending, n);
    ForInitSealed(s.start, c, n);
    ForPartNext(s.start, c);
    ForBodyEmpty(s, c, 2);
    ForBodyFromTest(s, c, names, entry, e1, pending, n);
  }

  lemma ForTestGood(s: Stmt, c: Builder, names: set<string>, e1: Entry, known: set<nat>, pending: set<BlockId>, n: nat)
    requires s.ForStmt? && TypeOf(s.cond, names).Some? && |e1| == n + 5 == |c.blocks| + 5
    requires known == e1[n + 1] + Defs(Decision(s.cond, ForInit(s.start, c)))
    requires e1[n + 2] == known && e1[n + 4] == known
    requires Slots(ForInit(s.start, c), e1, names) && Good(ForInit(s.start, c), e1, pending)
    requires Open(ForInit(s.start, c))
    ensures GenExpr(s.cond, ForInit(s.start, c)).1.Some?
    ensures Good(ForTest(s, c), e1, pending) && HasTerminator(ForTest(s, c).blocks[n + 1])
  {
    hide Good, InstrGood, Slots, GenExpr, ForInit, ForBlocks, Decision, TypeOf, HasTerminator, EmitLoopBranch, Open;
    var d := ForInit(s.start, c);
    ForLayouts(s.start, c);
    assert d.cur == n + 1 && n + 2 in d.layout && n + 4 in d.layout;
    TestGood(s.cond, d, n + 2, n + 4, names, e1, pending);
  }

  lemma ForBodyFromTest(s: Stmt, c: Builder, names: set<string>, entry: Entry, e1: Entry, pending: set<BlockId>, n: nat)
    requires s.ForStmt? && GenExpr(s.cond, ForInit(s.start, c)).1.Some? && n == |c.blocks|
    requires |e1| == n + 5 && |entry| == n && c.next <= ForBody(s, c).next
    requires Available(c, entry) <= e1[n + 2] && EmptyAt(ForBody(s, c), n + 2)
    requires ForInit(s.start, c).layout == ForBlocks(c).layout && ForInit(s.start, c).cur == n + 1
    requires HasTerminator(ForTest(s, c).blocks[n + 1]) && Good(ForTest(s, c), e1, pending)
    requires FinishedBut(ForInit(s.start, c), {n + 1, n + 2, n + 3, n + 4}) && Slots(c, entry, names)
    requires forall b :: b in c.layout ==> b < |c.blocks|
    ensures Ready(ForBody(s, c), e1, pending, names) && Available(ForBody(s, c), e1) == e1[n + 2]
    ensures FinishedBut(ForBody(s, c), ForLater(n) + {n + 2}) && ForBody(s, c).layout == ForBlocks(c).layout
  {
    hide Good, InstrGood, GenExpr, ForInit, ForTest, ForBody, HasTerminator, Available, Open, FinishedBut, Slots;
    hide ForBlocks, Ready, EmptyAt;
    var d := ForInit(s.start, c);
    ForBodyIs(s, c);
    EmptyOpen(ForBody(s, c));
    EmptyBlock(ForBody(s, c), n + 2);
    GoodSame(ForTest(s, c), ForBody(s, c), e1, pending, pending);
    EnterSlots(c, entry, ForBody(s, c), e1, names);
    TestSeals(d, ForBody(s, c), n);
    assert forall k :: k in ForBody(s, c).layout ==> k < n + 5;
    MakesReady(ForBody(s, c), e1, pending, names);
  }

  lemma ForBodyIs(s: Stmt, c: Builder)
    requires s.ForStmt? && GenExpr(s.cond, ForInit(s.start, c)).1.Some?
    ensures var d, e := ForInit(s.start, c), ForBody(s, c);
            && e.blocks == ForTest(s, c).blocks && e.layout == ForTest(s, c).layout == d.layout
            && |e.blocks| == |d.blocks| && e.blocks == d.blocks[d.cur := e.blocks[d.cur]]
  {
    LoopBranchFacts(s.cond, ForInit(s.start, c), |c.blocks| + 2, |c.blocks| + 4);
    hide GenExpr, ForInit, EmitLoopBranch;
  }

  /** Once the condition block has its branch, only the body, increment and exit are open. */
  lemma TestSeals(c: Builder, d: Builder, n: nat)
    requires FinishedBut(c, {n + 1, n + 2, n + 3, n + 4}) && c.cur == n + 1 && d.layout == c.layout
    requires |d.blocks| == |c.blocks| && d.blocks == c.blocks[n + 1 := d.blocks[n + 1]]
             && HasTerminator(d.blocks[n + 1])
    ensures FinishedBut(d, ForLater(n) + {n + 2})
  {
  }

  lemma {:induction false} ForGraph(s: Stmt, c: Builder, names: set<string>, entry: Entry, pending: set<BlockId>)
    returns (entry': Entry)
    requires s.ForStmt? && ForOk(s.start, s.cond, s.increment, s.body, names) && Ready(c, entry, pending, names)
    requires FinishedBut(c, {c.cur})
    ensures |entry'| == |GenFor(s, c).0.blocks| && entry <= entry' && Good(GenFor(s, c).0, entry', pending)
    ensures AllFinished(GenFor(s, c).0)
  {
    hide Good, InstrGood, Slots, GenExpr, ForInit, ForBody, ForBodyEnd, ForIter, TypeOf, PartOk, Available;
    hide HasTerminator, EmptyAt, FinishedBut, BlockOk, GenFor, GenBlock, AllBound, Finished, ForBlocks;
    var n := |c.blocks|;
    SlotsBound(c, entry, names);
    ForStages(s, c, names);
    hide Open;
    var known, e1 := ForBodyReady(s, c, names, entry, pending, n);
    entry' := ForBodyGraph(s, c, names, e1, pending, n);
    ForTail(s, c, names, entry, known, entry', pending, n);
  }

  /** The body of a for, up to its end. */
  lemma {:induction false} ForBodyGraph(s: Stmt, c: Builder, names: set<string>, e1: Entry, pending: set<BlockId>,
                                        n: nat)
    returns (e2: Entry)
    requires s.ForStmt? && BlockOk(s.body, names) && n == |c.blocks| && GenExpr(s.cond, ForInit(s.start, c)).1.Some?
    requires Ready(ForBody(s, c), e1, pending, names) && |e1| == n + 5
    requires FinishedBut(ForBody(s, c), ForLater(n) + {n + 2}) && ForBody(s, c).layout == ForBlocks(c).layout
    ensures |e2| == |ForBodyEnd(s, c).blocks| && Good(ForBodyEnd(s, c), e2, pending) && e1 <= e2
    ensures Available(ForBody(s, c), e1) <= Available(ForBodyEnd(s, c), e2)
    ensures e2[n + 1] == e1[n + 1] && e2[n + 3] == e1[n + 3]
    ensures n + 1 in ForBodyEnd(s, c).layout && n + 3 in ForBodyEnd(s, c).layout
    ensures FinishedBut(ForBodyEnd(s, c), ForLater(n) + {ForBodyEnd(s, c).cur})
  {
    hide Good, InstrGood, Slots, GenExpr, ForInit, ForBody, Available, HasTerminator, FinishedBut, BlockOk, GenBlock;
    hide Finished, ForBlocks, Ready;
    e2 := BlockGraph(s.body, ForBody(s, c), names, e1, pending);
    BlockFinishes(s.body, ForBody(s, c), ForLater(n));
    ForLayouts(s.start, c);
    assert n + 1 in ForBody(s, c).layout && n + 3 in ForBody(s, c).layout;
    BlockKeepsInserted(s.body, ForBody(s, c), n + 1);
    BlockKeepsInserted(s.body, ForBody(s, c), n + 3);
  }

  /** From the end of the body to the end of the for. */
  lemma ForTail(s: Stmt, c: Builder, names: set<string>, entry: Entry, known: set<nat>, e2: Entry,
                pending: set<BlockId>, n: nat)
    requires s.ForStmt? && ForOk(s.start, s.cond, s.increment, s.body, names) && n == |c.blocks|
    requires Slots(c, entry, names) && Available(c, entry) <= known
    requires GenExpr(s.cond, ForInit(s.start, c)).1.Some? && Open(ForBodyEnd(s, c)) && ForBodyEnd(s, c).cur == n + 2
    requires |e2| == |ForBodyEnd(s, c).blocks| && Good(ForBodyEnd(s, c), e2, pending)
             && known <= Available(ForBodyEnd(s, c), e2)
    requires e2[n + 1] <= known && e2[n + 3] == known
    requires n + 1 in ForBodyEnd(s, c).layout && n + 3 in ForBodyEnd(s, c).layout
    requires FinishedBut(ForBodyEnd(s, c), ForLater(n) + {n + 2})
    requires EmptyAt(ForIter(s, c), n + 3) && EmptyAt(ForIter(s, c), n + 4) && ForIter(s, c).scopes == c.scopes
             && c.next <= ForIter(s, c).next
    requires ForIter(s, c).blocks == Emit(ForBodyEnd(s, c), Br(n + 3)).blocks
    ensures |e2| == |GenFor(s, c).0.blocks| && Good(GenFor(s, c).0, e2, pending) && AllFinished(GenFor(s, c).0)
  {
    hide Good, InstrGood, Slots, GenExpr, ForInit, ForBodyEnd, ForIter, TypeOf, PartOk, Available, HasTerminator;
    hide EmptyAt, LoopExit, GenFor, Open, LoopBodyOk, WhileOk, FinishedBut, ForIterEnd, StraightLine;
    ForIterLayout(s, c);
    JumpGood(ForBodyEnd(s, c), n + 3, e2, pending);
    ForUnfold(s, c);
    ForIterEndKeeps(s, c);
    MoveReady(Emit(ForBodyEnd(s, c), Br(n + 3)), ForIter(s, c), n + 3, names, entry, e2, pending, c);
    ForIterEndGood(s, c, names, e2, pending);
    EmitKeepsEmpty(ForIterEnd(s, c), Br(n + 1), n + 4);
    JumpGood(ForIterEnd(s, c), n + 1, e2, pending);
    ExitGood(Emit(ForIterEnd(s, c), Br(n + 1)), n + 4, e2, pending);
    ForAllFinished(ForBodyEnd(s, c), ForIter(s, c), ForIterEnd(s, c), GenFor(s, c).0, n);
  }

  lemma ForIterEndGood(s: Stmt, c: Builder, names: set<string>, e2: Entry, pending: set<BlockId>)
    requires s.ForStmt? && GenExpr(s.cond, ForInit(s.start, c)).1.Some? && PartOk(s.increment, names)
    requires Slots(ForIter(s, c), e2, names) && Good(ForIter(s, c), e2, pending) && Open(ForIter(s, c))
    requires EmptyAt(ForIter(s, c), |c.blocks| + 4)
    ensures Good(ForIterEnd(s, c), e2, pending) && Open(ForIterEnd(s, c)) && EmptyAt(ForIterEnd(s, c), |c.blocks| + 4)
    ensures Available(ForIter(s, c), e2) <= Available(ForIterEnd(s, c), e2)
  {
    hide Good, InstrGood, Slots, GenExpr, ForIter, PartOk, Available, EmptyAt, Open, ForInit;
    PartGood(s.increment, ForIter(s, c), names, e2, pending);
    PartKeepsEmpty(s.increment, ForIter(s, c), |c.blocks| + 4);
  }

  /** Body, increment and exit have all been closed. */
  lemma ForAllFinished(e: Builder, i: Builder, j: Builder, f: Builder, n: nat)
    requires n + 4 < |e.blocks| && e.cur == n + 2 && FinishedBut(e, ForLater(n) + {n + 2})
    requires i.layout == e.layout && i.blocks == Emit(e, Br(n + 3)).blocks
    requires j.layout == i.layout && |j.blocks| == |i.blocks| && j.cur == n + 3
    requires forall b :: 0 <= b < |i.blocks| && b != n + 3 ==> j.blocks[b] == i.blocks[b]
    requires f.layout == j.layout && f.blocks == Emit(j, Br(n + 1)).blocks[n + 4 := [RetVoid]]
    ensures AllFinished(f)
  {
    EmittedTerminator(e, Br(n + 3));
    EmittedTerminator(j, Br(n + 1));
    assert HasTerminator([RetVoid]);
    hide HasTerminator;
    forall b | b in f.layout
      ensures b < |f.blocks| && HasTerminator(f.blocks[b])
    {
      if b != n + 2 && b != n + 3 && b != n + 4 {
        assert HasTerminator(e.blocks[b]);
      }
    }
  }

  lemma ForIterLayout(s: Stmt, c: Builder)
    requires s.ForStmt? && GenExpr(s.cond, ForInit(s.start, c)).1.Some?
    ensures ForIter(s, c).layout == ForBodyEnd(s, c).layout
    ensures Emit(ForBodyEnd(s, c), Br(|c.blocks| + 3)).layout == ForBodyEnd(s, c).layout
  {
    hide GenExpr, ForBodyEnd;
  }

  /** The increment changes its own block only. */
  lemma ForIterEndKeeps(s: Stmt, c: Builder)
    requires s.ForStmt? && GenExpr(s.cond, ForInit(s.start, c)).1.Some?
    ensures ForIterEnd(s, c).layout == ForIter(s, c).layout && |ForIterEnd(s, c).blocks| == |ForIter(s, c).blocks|
    ensures forall b :: 0 <= b < |ForIter(s, c).blocks| && b != |c.blocks| + 3 ==>
              ForIterEnd(s, c).blocks[b] == ForIter(s, c).blocks[b]
  {
    hide GenExpr, ForIter;
  }

  // ----- whole functions -----

  lemma {:induction false} ParamsGraph(params: seq<string>, i: nat, c: Builder, names: set<string>, entry: Entry,
                                       pending: set<BlockId>)
    requires i <= |params| && Ready(c, entry, pending, names) && FinishedBut(c, {c.cur})
    ensures Ready(GenParams(params, i, c), entry, pending, names + ParamNames(params[i..]))
    ensures FinishedBut(GenParams(params, i, c), {GenParams(params, i, c).cur}) && GenParams(params, i, c).cur == c.cur
    decreases |params| - i
  {
    hide Ready, ParamStored, FinishedBut;
    if i == |params| {
      assert params[i..] == [] && ParamNames(params[i..]) == {};
      assert names + ParamNames(params[i..]) == names;
    } else {
      hide GenParams;
      var d := ParamStored(c, params, i);
      ParamStoredFacts(c, params, i);
      ParamGraph(params, i, c, names, entry, pending);
      ParamsGraph(params, i + 1, d, names + {params[i]}, entry, pending);
      OneNameMore(params, i, names);
    }
  }

  lemma OneNameMore(params: seq<string>, i: nat, names: set<string>)
    requires i < |params|
    ensures names + {params[i]} + ParamNames(params[i + 1..]) == names + ParamNames(params[i..])
  {
    assert params[i..] == [params[i]] + params[i + 1..];
  }

  lemma ParamGraph(params: seq<string>, i: nat, c: Builder, names: set<string>, entry: Entry, pending: set<BlockId>)
    requires i < |params| && Ready(c, entry, pending, names) && FinishedBut(c, {c.cur})
    ensures Ready(ParamStored(c, params, i), entry, pending, names + {params[i]})
    ensures FinishedBut(ParamStored(c, params, i), {c.cur}) && ParamStored(c, params, i).cur == c.cur
  {
    var x := params[i];
    var c1 := Declare(c, x);
    ParamStoredFacts(c, params, i);
    DeclaredSlots(c, x, names, entry);
    EmitTempGood(c, Alloca(c.next), entry, pending);
    GoodSame(EmitTemp(c, Alloca(c.next)), c1, entry, pending, pending);
    var i2 := Instr.Store(Arg(i), Temp(c.next, Pointer));
    assert Open(c1) && c1.layout == c.layout;
    EmitGood(c1, i2, entry, pending);
    GoodSame(Emit(c1, i2), ParamStored(c, params, i), entry, pending, pending);
    SameScopeSlots(c1, entry, ParamStored(c, params, i), entry, names + {x});
  }

  lemma {:induction false} FinalGraph(s: Stmt, c: Builder, names: set<string>, entry: Entry) returns (entry': Entry)
    requires FinalOk(s, names) && Ready(c, entry, {}, names) && FinishedBut(c, {c.cur})
    ensures |entry'| == |GenStmt(s, c).0.blocks| && entry <= entry' && Good(GenStmt(s, c).0, entry', {})
    ensures AllFinished(GenStmt(s, c).0)
  {
    hide Good, InstrGood, Slots, Available, GenFor, GenWhile;
    match s
    case ReturnStmt(v) =>
      entry' := entry;
      if v.Some? {
        ReturnGood(v.value, c, names, entry, {});
      } else {
        EmitGood(c, RetVoid, entry, {});
      }
    case WhileStmt(_, _) =>
      entry' := WhileGraph(s, c, names, entry, {});
    case ForStmt(_, _, _, _) =>
      entry' := ForGraph(s, c, names, entry, {});
  }

  /** The graph before the last statement: nothing is known on entry to the function. */
  lemma BeforeFinalGraph(f: Function, next: nat, outer: seq<Scope>) returns (entry: Entry)
    requires Supported(f)
    ensures f.body != [] && entry != []
    ensures Ready(BeforeFinal(f, next, outer), entry, {}, FinalNames(f)) && entry[0] == {}
    ensures FinishedBut(BeforeFinal(f, next, outer), {BeforeFinal(f, next, outer).cur})
    ensures FinalOk(Final(f.body), FinalNames(f))
    ensures GenFunction(f, next, outer) == GenStmt(Final(f.body), BeforeFinal(f, next, outer)).0
  {
    var c0 := EntryCtx(next, outer);
    var c1 := GenParams(f.params, 0, c0);
    assert Ready(c0, [{}], {}, {}) && FinishedBut(c0, {c0.cur});
    hide Good, InstrGood, Slots, GenStmt, GenBlock, Available, GenParams, HasTerminator, EntryCtx, BlockOk, FinalOk;
    hide BeforeFinal;
    ParamsGraph(f.params, 0, c0, {}, [{}], {});
    assert {} + ParamNames(f.params[0..]) == ParamNames(f.params) by { assert f.params[0..] == f.params; }
    entry := BlockGraph(Front(f.body), c1, ParamNames(f.params), [{}], {});
    BeforeFinalIs(f, next, outer);
    BeforeFinalReady(f, next, outer, [{}], entry);
    BlockSplits(f.body, c1);
    assert entry[0] == [{}][0];
  }

  /** The graph of a function, with its entry sets. */
  lemma FunctionGraph(f: Function, next: nat, outer: seq<Scope>) returns (entry: Entry)
    requires Supported(f)
    ensures Good(GenFunction(f, next, outer), entry, {}) && entry[0] == {}
    ensures AllFinished(GenFunction(f, next, outer))
  {
    hide *;
    var e := BeforeFinalGraph(f, next, outer);
    entry := FinalGraph(Final(f.body), BeforeFinal(f, next, outer), FinalNames(f), e);
    assert entry[0] == e[0];
  }

  lemma BeforeFinalReady(f: Function, next: nat, outer: seq<Scope>, e1: Entry, e2: Entry)
    requires Supported(f)
    requires Ready(GenParams(f.params, 0, EntryCtx(next, outer)), e1, {}, ParamNames(f.params))
    requires FinishedBut(GenParams(f.params, 0, EntryCtx(next, outer)),
                         {GenParams(f.params, 0, EntryCtx(next, outer)).cur})
    requires Extended(GenParams(f.params, 0, EntryCtx(next, outer)), e1, BeforeFinal(f, next, outer), e2, {},
                      FinalNames(f))
    ensures Ready(BeforeFinal(f, next, outer), e2, {}, FinalNames(f))
    ensures FinishedBut(BeforeFinal(f, next, outer), {BeforeFinal(f, next, outer).cur})
  {
    var c1 := GenParams(f.params, 0, EntryCtx(next, outer));
    SlotsBound(c1, e1, ParamNames(f.params));
    BlockShape(Front(f.body), c1, ParamNames(f.params));
    BlockGrew(Front(f.body), c1);
    LayoutKept(c1, BeforeFinal(f, next, outer), |c1.blocks|);
    hide Good, InstrGood, Slots, GenStmt, GenBlock, Available, GenParams, HasTerminator, EntryCtx, BlockOk, GrewFrom;
    BlockFinishes(Front(f.body), c1, {});
  }

  // ----- paths -----

  /** Control can pass from the end of block b to block t. */
  predicate Edge(code: Code, b: BlockId, t: BlockId) {
    && b < |code| && t < |code|
    && code[b] != [] && t in Targets(code[b][|code[b]| - 1])
  }

  /** A path from the entry block along edges. */
  predicate IsPath(code: Code, path: seq<BlockId>) {
    && path != [] && path[0] == 0 && 0 < |code|
    && forall k :: 0 < k < |path| ==> Edge(code, path[k - 1], path[k])
  }

  predicate InCode(code: Code, path: seq<BlockId>) {
    forall k :: 0 <= k < |path| ==> path[k] < |code|
  }

  /** Everything defined in the blocks passed before the last one of a path. */
  function PathDefs(code: Code, path: seq<BlockId>): set<nat>
    requires InCode(code, path)
  {
    if |path| <= 1 then {} else PathDefs(code, path[..|path| - 1]) + Defs(code[path[|path| - 2]])
  }

  lemma PathInCode(code: Code, path: seq<BlockId>)
    requires IsPath(code, path)
    ensures InCode(code, path)
  {
    forall k | 0 <= k < |path|
      ensures path[k] < |code|
    {
      if k > 0 {
        assert Edge(code, path[k - 1], path[k]);
      }
    }
  }

  /** Entry temporaries really are defined, whichever way the block was reached. */
  lemma {:induction false} EntryDefined(c: Builder, entry: Entry, path: seq<BlockId>)
    requires IsPath(c.blocks, path) && Good(c, entry, {}) && entry[0] == {}
    ensures InCode(c.blocks, path)
    ensures entry[path[|path| - 1]] <= PathDefs(c.blocks, path)
    decreases |path|
  {
    PathInCode(c.blocks, path);
    if |path| > 1 {
      var front := path[..|path| - 1];
      var b, t := path[|path| - 2], path[|path| - 1];
      assert IsPath(c.blocks, front);
      EntryDefined(c, entry, front);
      assert front[|front| - 1] == b && Edge(c.blocks, b, t);
      var block := c.blocks[b];
      assert InstrGood(block, |block| - 1, entry[b], entry, c.layout, {});
      DefsMonotone(block, |block| - 1);
    }
  }

  lemma {:induction false} DefsMonotone(block: seq<Instr>, k: nat)
    requires k <= |block|
    ensures Defs(block[..k]) <= Defs(block)
    decreases |block| - k
  {
    if k == |block| {
      assert block[..k] == block;
    } else {
      assert block[..k + 1][..k] == block[..k];
      DefsMonotone(block, k + 1);
    }
  }

  // ----- the theorems -----

  /** A terminator is the last instruction of its block. */
  ghost predicate TerminatorsLast(d: Builder) {
    forall b, k :: 0 <= b < |d.blocks| && 0 <= k < |d.blocks[b]| && IsTerminator(d.blocks[b][k]) ==>
      k == |d.blocks[b]| - 1
  }

  /** Every block that something jumps to is inserted in the function. */
  ghost predicate TargetsInserted(d: Builder) {
    forall b, k, t :: 0 <= b < |d.blocks| && 0 <= k < |d.blocks[b]| && t in Targets(d.blocks[b][k]) ==> t in d.layout
  }

  /** Each inserted block ends in its only terminator, and each branch goes to an inserted block. */
  ghost predicate WellFormed(d: Builder) {
    AllFinished(d) && TerminatorsLast(d) && TargetsInserted(d)
  }

  lemma GoodTargets(d: Builder, entry: Entry)
    requires Good(d, entry, {})
    ensures TargetsInserted(d) && TerminatorsLast(d)
  {
    forall b, k | 0 <= b < |d.blocks| && 0 <= k < |d.blocks[b]|
      ensures forall t :: t in Targets(d.blocks[b][k]) ==> t in d.layout
      ensures IsTerminator(d.blocks[b][k]) ==> k == |d.blocks[b]| - 1
    {
      assert InstrGood(d.blocks[b], k, entry[b], entry, d.layout, {});
    }
  }

  /** Graph well-formedness, for the code of every supported function. */
  lemma GraphWellFormed(f: Function, next: nat, outer: seq<Scope>)
    requires Supported(f)
    ensures WellFormed(GenFunction(f, next, outer))
  {
    var entry := FunctionGraph(f, next, outer);
    hide GenFunction;
    GoodTargets(GenFunction(f, next, outer), entry);
  }

  /** On every path from the entry block each temporary is defined before it is used. */
  lemma UsesDefinedOnPaths(f: Function, next: nat, outer: seq<Scope>, path: seq<BlockId>, k: nat)
    requires Supported(f) && IsPath(CodeOf(f, next, outer), path)
    requires path[|path| - 1] < |CodeOf(f, next, outer)| && k < |CodeOf(f, next, outer)[path[|path| - 1]]|
    ensures InCode(CodeOf(f, next, outer), path)
    ensures Uses(CodeOf(f, next, outer)[path[|path| - 1]][k]) <=
              PathDefs(CodeOf(f, next, outer), path) + Defs(CodeOf(f, next, outer)[path[|path| - 1]][..k])
  {
    var entry := FunctionGraph(f, next, outer);
    var d := GenFunction(f, next, outer);
    hide GenFunction;
    EntryDefined(d, entry, path);
    assert InstrGood(d.blocks[path[|path| - 1]], k, entry[path[|path| - 1]], entry, d.layout, {});
  }
}
