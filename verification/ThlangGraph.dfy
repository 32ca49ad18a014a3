/**
  Well-formedness of the generated control-flow graph: a terminator is the last
  instruction of its block and every finished block has one, every branch goes to
  a block that is inserted in the function, and every temporary used is defined on
  each path that reaches the use.
*/
module ThlangGraph {
  import opened Wrappers
  import opened ThlangAst
  import opened ThlangSemantics
  import opened ThlangIr
  import opened ThlangCodeGen
  import opened ThlangStructure
  import opened ThlangScopes
  import opened ThlangShape
  import opened ThlangStmtCorrect

  // ----- definitions, uses, targets -----

  function TempsOf(o: Operand): set<nat> {
    if o.Temp? then {o.id} else {}
  }

  function Uses(i: Instr): set<nat> {
    match i
    case Alloca(_) => {}
    case Load(_, p) => TempsOf(p)
    case Store(v, p) => TempsOf(v) + TempsOf(p)
    case Binary(_, _, l, r) => TempsOf(l) + TempsOf(r)
    case ICmp(_, _, l, r) => TempsOf(l) + TempsOf(r)
    case Trunc(_, v) => TempsOf(v)
    case Br(_) => {}
    case CondBr(v, _, _) => TempsOf(v)
    case Ret(v) => TempsOf(v)
    case RetVoid => {}
  }

  function Defines(i: Instr): set<nat> {
    match i
    case Alloca(d) => {d}
    case Load(d, _) => {d}
    case Binary(d, _, _, _) => {d}
    case ICmp(d, _, _, _) => {d}
    case Trunc(d, _) => {d}
    case _ => {}
  }

  function Targets(i: Instr): set<BlockId> {
    match i
    case Br(t) => {t}
    case CondBr(_, t, e) => {t, e}
    case _ => {}
  }

  /** The temporaries defined by a stretch of instructions. */
  function Defs(block: seq<Instr>): set<nat> {
    if block == [] then {} else Defs(block[..|block| - 1]) + Defines(block[|block| - 1])
  }

  /** For each block, temporaries known to be defined on entry. */
  type Entry = seq<set<nat>>

  function Available(c: Builder, entry: Entry): set<nat>
    requires |entry| == |c.blocks|
  {
    entry[c.cur] + Defs(c.blocks[c.cur])
  }

  /**
    One instruction of a block: its uses are available where it stands, it jumps only to
    blocks of which every entry temporary is available, that are inserted or pending,
    and nothing follows it if it is a terminator.
  */
  predicate InstrGood(block: seq<Instr>, k: nat, known: set<nat>, entry: Entry, layout: seq<BlockId>,
                      pending: set<BlockId>)
    requires k < |block|
  {
    && Uses(block[k]) <= known + Defs(block[..k])
    && (forall t :: t in Targets(block[k]) ==>
          t < |entry| && entry[t] <= known + Defs(block[..k]) && (t in layout || t in pending))
    && (IsTerminator(block[k]) ==> k == |block| - 1)
  }

  ghost predicate Good(c: Builder, entry: Entry, pending: set<BlockId>) {
    && |entry| == |c.blocks|
    && forall b, k :: 0 <= b < |c.blocks| && 0 <= k < |c.blocks[b]| ==>
         InstrGood(c.blocks[b], k, entry[b], entry, c.layout, pending)
  }

  /** Every name has a slot, and the slot is available at the insertion point. */
  ghost predicate Slots(c: Builder, entry: Entry, names: set<string>) {
    && |entry| == |c.blocks|
    && forall x :: x in names ==>
         match GetValue(c.scopes, x)
         case Some(Temp(id, Pointer)) => id < c.next && id in Available(c, entry)
         case _ => false
  }

  lemma SlotsBound(c: Builder, entry: Entry, names: set<string>)
    requires Slots(c, entry, names)
    ensures AllBound(c.scopes, c.next, names)
  {
  }

  lemma SlotsKept(c: Builder, e1: Entry, d: Builder, e2: Entry, names: set<string>, changed: set<string>)
    requires Slots(c, e1, names) && |e2| == |d.blocks| && Available(c, e1) <= Available(d, e2)
    requires SameOutside(c.scopes, d.scopes, changed) && changed !! names && c.next <= d.next
    ensures Slots(d, e2, names)
  {
    forall x | x in names
      ensures GetValue(d.scopes, x) == GetValue(c.scopes, x)
    {
      SameLookup(c.scopes, d.scopes, changed, x);
    }
  }

  lemma SlotsLength(c: Builder, entry: Entry, names: set<string>)
    requires Slots(c, entry, names)
    ensures |entry| == |c.blocks|
  {
  }

  /** Slots seen again in the same scopes. */
  lemma SameScopeSlots(c: Builder, e1: Entry, d: Builder, e2: Entry, names: set<string>)
    requires Slots(c, e1, names) && |e2| == |d.blocks| && Available(c, e1) <= Available(d, e2)
    requires d.scopes == c.scopes && c.next <= d.next
    ensures Slots(d, e2, names)
  {
  }

  // ----- builder steps -----

  lemma EmitGood(c: Builder, i: Instr, entry: Entry, pending: set<BlockId>)
    requires Good(c, entry, pending) && Open(c)
    requires Uses(i) <= Available(c, entry)
    requires forall t :: t in Targets(i) ==>
               t < |entry| && entry[t] <= Available(c, entry) && (t in c.layout || t in pending)
    ensures Good(Emit(c, i), entry, pending)
    ensures Available(Emit(c, i), entry) == Available(c, entry) + Defines(i)
  {
    var old_ := c.blocks[c.cur];
    var block := old_ + [i];
    assert block[..|old_|] == old_ && block[|old_|] == i;
    var d := Emit(c, i);
    forall b, k | 0 <= b < |d.blocks| && 0 <= k < |d.blocks[b]|
      ensures InstrGood(d.blocks[b], k, entry[b], entry, d.layout, pending)
    {
      if b == c.cur && k < |old_| {
        assert block[..k] == old_[..k] && block[k] == old_[k];
        assert InstrGood(old_, k, entry[b], entry, c.layout, pending);
      } else if b != c.cur {
        assert InstrGood(c.blocks[b], k, entry[b], entry, c.layout, pending);
      }
    }
  }

  lemma EmittedTerminator(c: Builder, i: Instr)
    requires IsTerminator(i)
    ensures HasTerminator(Emit(c, i).blocks[c.cur])
  {
  }

  lemma EmitTempGood(c: Builder, i: Instr, entry: Entry, pending: set<BlockId>)
    requires Good(c, entry, pending) && Open(c) && !IsTerminator(i) && Targets(i) == {}
    requires Uses(i) <= Available(c, entry)
    ensures Good(EmitTemp(c, i), entry, pending) && Open(EmitTemp(c, i))
    ensures Available(EmitTemp(c, i), entry) == Available(c, entry) + Defines(i)
  {
    EmitGood(c, i, entry, pending);
    assert Good(EmitTemp(c, i), entry, pending) by { GoodSame(Emit(c, i), EmitTemp(c, i), entry, pending, pending); }
  }

  /** Numbers, scopes and the insertion point do not matter for Good. */
  lemma GoodSame(c: Builder, d: Builder, entry: Entry, p: set<BlockId>, q: set<BlockId>)
    requires Good(c, entry, p) && d.blocks == c.blocks
    requires forall b :: b in c.layout || b in p ==> b in d.layout || b in q
    ensures Good(d, entry, q)
  {
    forall b, k | 0 <= b < |d.blocks| && 0 <= k < |d.blocks[b]|
      ensures InstrGood(d.blocks[b], k, entry[b], entry, d.layout, q)
    {
      assert InstrGood(c.blocks[b], k, entry[b], entry, c.layout, p);
    }
  }

  /** A new block, to which nothing jumps yet; its entry may be chosen. */
  lemma CreateGood(c: Builder, inserted: bool, entry: Entry, known: set<nat>, pending: set<BlockId>)
    requires Good(c, entry, pending)
    ensures Good(CreateBlock(c, inserted), entry + [known], pending)
    ensures Available(CreateBlock(c, inserted), entry + [known]) == Available(c, entry)
  {
    var d, e := CreateBlock(c, inserted), entry + [known];
    forall b, k | 0 <= b < |d.blocks| && 0 <= k < |d.blocks[b]|
      ensures InstrGood(d.blocks[b], k, e[b], e, d.layout, pending)
    {
      assert InstrGood(c.blocks[b], k, entry[b], entry, c.layout, pending);
    }
  }

  // ----- expressions -----

  lemma EmitBinOpGood(c: Builder, op: BinaryOp, l: Operand, r: Operand, entry: Entry, pending: set<BlockId>)
    requires Good(c, entry, pending) && Open(c) && EmitBinOp(c, op, l, r).1.Some?
    requires TempsOf(l) + TempsOf(r) <= Available(c, entry)
    ensures Good(EmitBinOp(c, op, l, r).0, entry, pending) && Open(EmitBinOp(c, op, l, r).0)
    ensures Available(c, entry) + TempsOf(EmitBinOp(c, op, l, r).1.value) == Available(EmitBinOp(c, op, l, r).0, entry)
  {
    match Select(op)
    case Arith(kind) => EmitTempGood(c, Binary(c.next, kind, l, r), entry, pending);
    case Compare(p) => EmitTempGood(c, ICmp(c.next, p, l, r), entry, pending);
  }

  lemma {:induction false} ExprGood(e: Expr, c: Builder, names: set<string>, entry: Entry, pending: set<BlockId>)
    requires TypeOf(e, names).Some? && Slots(c, entry, names) && Good(c, entry, pending) && Open(c)
    ensures GenExpr(e, c).1.Some?
    ensures Good(GenExpr(e, c).0, entry, pending) && Open(GenExpr(e, c).0)
    ensures Available(c, entry) <= Available(GenExpr(e, c).0, entry)
    ensures TempsOf(GenExpr(e, c).1.value) <= Available(GenExpr(e, c).0, entry)
    ensures Slots(GenExpr(e, c).0, entry, names)
    decreases e
  {
    match e
    case IntLit(_) =>
    case Name(x) =>
      var p := GetValue(c.scopes, x).value;
      EmitTempGood(c, Load(c.next, p), entry, pending);
    case UnOp(op, e1) =>
      ExprGood(e1, c, names, entry, pending);
      var (c1, o) := GenExpr(e1, c);
      if op == Neg {
        EmitTempGood(c1, Binary(c1.next, BSub, Const(I32, 0), o.value), entry, pending);
      }
    case BinOp(op, l, r) =>
      BinOpGood(op, l, r, c, names, entry, pending);
  }

  lemma {:induction false} BinOpGood(op: BinaryOp, l: Expr, r: Expr, c: Builder, names: set<string>, entry: Entry,
                                     pending: set<BlockId>)
    requires TypeOf(BinOp(op, l, r), names).Some? && Slots(c, entry, names) && Good(c, entry, pending) && Open(c)
    ensures GenExpr(BinOp(op, l, r), c).1.Some?
    ensures Good(GenExpr(BinOp(op, l, r), c).0, entry, pending) && Open(GenExpr(BinOp(op, l, r), c).0)
    ensures Available(c, entry) <= Available(GenExpr(BinOp(op, l, r), c).0, entry)
    ensures TempsOf(GenExpr(BinOp(op, l, r), c).1.value) <= Available(GenExpr(BinOp(op, l, r), c).0, entry)
    ensures Slots(GenExpr(BinOp(op, l, r), c).0, entry, names)
    decreases BinOp(op, l, r), 0
  {
    hide Good, InstrGood, Slots, Available, GenExpr, EmitBinOp, Open, TypeOf;
    BinOpParts(op, l, r, names);
    var (c1, o1) := GenExpr(l, c);
    ExprGood(l, c, names, entry, pending);
    var (c2, o2) := GenExpr(r, c1);
    ExprGood(r, c1, names, entry, pending);
    BinOpIs(op, l, r, c);
    EmitBinOpGood(c2, op, o1.value, o2.value, entry, pending);
    var d := EmitBinOp(c2, op, o1.value, o2.value).0;
    EmitBinOpKeeps(c2, op, o1.value, o2.value);
    SameScopeSlots(c2, entry, d, entry, names);
  }

  lemma BinOpParts(op: BinaryOp, l: Expr, r: Expr, names: set<string>)
    requires TypeOf(BinOp(op, l, r), names).Some?
    ensures TypeOf(l, names).Some? && TypeOf(r, names).Some? && !Select(op).NoCase?
  {
  }

  lemma BinOpIs(op: BinaryOp, l: Expr, r: Expr, c: Builder)
    requires GenExpr(l, c).1.Some? && GenExpr(r, GenExpr(l, c).0).1.Some? && !Select(op).NoCase?
    ensures var (c2, o2) := GenExpr(r, GenExpr(l, c).0);
            && EmitBinOp(c2, op, GenExpr(l, c).1.value, o2.value).1.Some?
            && GenExpr(BinOp(op, l, r), c) == EmitBinOp(c2, op, GenExpr(l, c).1.value, o2.value)
  {
  }

  lemma EmitBinOpKeeps(c: Builder, op: BinaryOp, l: Operand, r: Operand)
    ensures var d := EmitBinOp(c, op, l, r).0;
            d.scopes == c.scopes && c.next <= d.next && |d.blocks| == |c.blocks|
  {
  }

  lemma ExprStmtGood(e: Expr, c: Builder, names: set<string>, entry: Entry, pending: set<BlockId>)
    requires ExprStmtOk(e, names) && Slots(c, entry, names) && Good(c, entry, pending) && Open(c)
    ensures Good(GenExpr(e, c).0, entry, pending) && Open(GenExpr(e, c).0)
    ensures Available(c, entry) <= Available(GenExpr(e, c).0, entry)
    ensures Slots(GenExpr(e, c).0, entry, names)
  {
    if e.Assign? {
      ExprGood(e.rhs, c, names, entry, pending);
      var (c1, o) := GenExpr(e.rhs, c);
      var i := Instr.Store(o.value, GetValue(c.scopes, e.target).value);
      EmitGood(c1, i, entry, pending);
    } else {
      ExprGood(e, c, names, entry, pending);
    }
  }

  // ----- statements -----

  /** Blocks inserted since c have a terminator, as has the block left behind, except the one d stands in. */
  ghost predicate Finished(c: Builder, d: Builder) {
    && |c.blocks| <= |d.blocks|
    && (forall b :: b in d.layout && |c.blocks| <= b < |d.blocks| && b != d.cur ==> HasTerminator(d.blocks[b]))
    && (d.cur != c.cur ==> HasTerminator(d.blocks[c.cur]))
  }

  /** What generation from c to d keeps and adds. */
  ghost predicate Extended(c: Builder, entry: Entry, d: Builder, entry': Entry, pending: set<BlockId>,
                           names: set<string>) {
    && |entry| == |c.blocks| && |entry'| == |d.blocks| && entry <= entry'
    && Good(d, entry', pending)
    && Available(c, entry) <= Available(d, entry')
    && Slots(d, entry', names)
    && Finished(c, d)
  }

  lemma SameBlockFinished(c: Builder, d: Builder)
    requires |d.blocks| == |c.blocks| && d.cur == c.cur
    ensures Finished(c, d)
  {
  }

  lemma VarGood(x: string, init: Expr, c: Builder, names: set<string>, entry: Entry, pending: set<BlockId>)
    requires TypeOf(init, names - {x}) == Some(IntTy) && Slots(c, entry, names) && Good(c, entry, pending) && Open(c)
    ensures Extended(c, entry, GenVar(x, Some(init), c).0, entry, pending, names + {x})
  {
    hide Good, InstrGood, Slots, GenExpr, TypeOf, Finished;
    var c0 := EmitTemp(c, Alloca(c.next));
    var c1 := Declare(c, x);
    EmitTempGood(c, Alloca(c.next), entry, pending);
    GoodSame(c0, c1, entry, pending, pending);
    DeclaredSlots(c, x, names, entry);
    assert Open(c1) && Available(c, entry) <= Available(c1, entry);
    var (c2, o) := GenExpr(init, c1);
    ExprGood(init, c1, names - {x}, entry, pending);
    hide Available, Open, Declare;
    VarIs(x, init, c);
    var d := Emit(c2, Instr.Store(o.value, Temp(c.next, Pointer)));
    EmitGood(c2, Instr.Store(o.value, Temp(c.next, Pointer)), entry, pending);
    SlotsLength(c, entry, names);
    SameScopeSlots(c1, entry, d, entry, names + {x});
    SameBlockFinished(c, d);
  }

  lemma DeclaredSlots(c: Builder, x: string, names: set<string>, entry: Entry)
    requires Slots(c, entry, names) && Open(c)
    ensures Slots(Declare(c, x), entry, names + {x}) && Slots(Declare(c, x), entry, names - {x})
    ensures c.next in Available(Declare(c, x), entry)
  {
    var d := Declare(c, x);
    var block := c.blocks[c.cur] + [Alloca(c.next)];
    assert d.blocks[c.cur] == block && block[..|block| - 1] == c.blocks[c.cur];
    forall y | y in names && y != x
      ensures GetValue(d.scopes, y) == GetValue(c.scopes, y)
    {
      SameLookup(c.scopes, d.scopes, {x}, y);
    }
  }

  lemma ReturnGood(e: Expr, c: Builder, names: set<string>, entry: Entry, pending: set<BlockId>)
    requires TypeOf(e, names) == Some(IntTy) && Slots(c, entry, names) && Good(c, entry, pending) && Open(c)
    ensures Extended(c, entry, GenStmt(ReturnStmt(Some(e)), c).0, entry, pending, names)
    ensures !Open(GenStmt(ReturnStmt(Some(e)), c).0)
  {
    hide Good, InstrGood, Slots, Available, GenExpr, TypeOf, Finished, HasTerminator;
    ExprGood(e, c, names, entry, pending);
    var (c1, o) := GenExpr(e, c);
    var d := Emit(c1, Ret(o.value));
    EmitGood(c1, Ret(o.value), entry, pending);
    EmittedTerminator(c1, Ret(o.value));
    SlotsLength(c, entry, names);
    SameScopeSlots(c1, entry, d, entry, names);
    SameBlockFinished(c, d);
  }

  // ----- if -----

  lemma IfCondGood(c: Builder, o: Operand, names: set<string>, entry: Entry, pending: set<BlockId>)
    requires Slots(c, entry, names) && Good(c, entry, pending) && Open(c) && TempsOf(o) <= Available(c, entry)
    ensures Good(EmitIfCond(c, o).0, entry, pending) && Open(EmitIfCond(c, o).0)
    ensures Available(c, entry) <= Available(EmitIfCond(c, o).0, entry)
    ensures TempsOf(EmitIfCond(c, o).1) <= Available(EmitIfCond(c, o).0, entry)
  {
    if TypeOfOperand(o) != I1 {
      EmitTempGood(c, ICmp(c.next, NE, o, Const(TypeOfOperand(o), 0)), entry, pending);
    }
  }

  /** The three blocks of an if are entered with what is available at its condition. */
  lemma IfHeadGood(c: Builder, o: Operand, names: set<string>, entry: Entry, pending: set<BlockId>)
    returns (known: set<nat>)
    requires Slots(c, entry, names) && Good(c, entry, pending) && Open(c) && TempsOf(o) <= Available(c, entry)
    ensures Available(c, entry) <= known
    ensures Good(IfHead(c, o), entry + [known] + [known] + [known], pending + {|c.blocks| + 1})
    ensures HasTerminator(IfHead(c, o).blocks[c.cur])
  {
    IfCondGood(c, o, names, entry, pending);
    var (c1, b) := EmitIfCond(c, o);
    known := Available(c1, entry);
    CreateIfGood(c1, entry, known, pending);
    hide Good, InstrGood, EmitIfCond, IfHead, IfBlocks;
    IfHeadFromBlocks(c, o);
    IfBranchGood(c1, b, known, entry + [known] + [known] + [known], pending + {|c.blocks| + 1}, IfHead(c, o));
  }

  lemma IfHeadFromBlocks(c: Builder, o: Operand)
    ensures var (c1, b) := EmitIfCond(c, o);
            && |c1.blocks| == |c.blocks| && c1.cur == c.cur
            && IfHead(c, o).blocks == Emit(IfBlocks(c1), CondBr(b, |c.blocks|, |c.blocks| + 1)).blocks
            && IfHead(c, o).layout == IfBlocks(c1).layout
  {
  }

  lemma IfBranchGood(c: Builder, b: Operand, known: set<nat>, entry: Entry, pending: set<BlockId>, d: Builder)
    requires |entry| == |c.blocks| + 3 && entry[|c.blocks|] == known && entry[|c.blocks| + 1] == known
    requires Good(IfBlocks(c), entry, pending) && Open(IfBlocks(c)) && |c.blocks| + 1 in pending
    requires Available(IfBlocks(c), entry) == known && TempsOf(b) <= known
    requires d.blocks == Emit(IfBlocks(c), CondBr(b, |c.blocks|, |c.blocks| + 1)).blocks
             && d.layout == IfBlocks(c).layout
    ensures Good(d, entry, pending) && HasTerminator(d.blocks[c.cur])
  {
    var i := CondBr(b, |c.blocks|, |c.blocks| + 1);
    assert HasTerminator(Emit(IfBlocks(c), i).blocks[c.cur]);
    hide Good, InstrGood, IfBlocks, Available;
    EmitGood(IfBlocks(c), i, entry, pending);
    GoodSame(Emit(IfBlocks(c), i), d, entry, pending, pending);
  }

  /** The three blocks created for an if. */
  function IfBlocks(c: Builder): (r: Builder)
    ensures |r.blocks| == |c.blocks| + 3 && r.layout == c.layout + [|c.blocks|] && r.cur == c.cur
  {
    CreateBlock(CreateBlock(CreateBlock(c, true), false), false)
  }

  lemma CreateIfGood(c: Builder, entry: Entry, known: set<nat>, pending: set<BlockId>)
    requires Good(c, entry, pending) && Open(c)
    ensures Good(IfBlocks(c), entry + [known] + [known] + [known], pending + {|c.blocks| + 1}) && Open(IfBlocks(c))
    ensures Available(IfBlocks(c), entry + [known] + [known] + [known]) == Available(c, entry)
  {
    var e := entry + [known] + [known] + [known];
    assert Open(IfBlocks(c));
    hide Good, InstrGood, Available;
    CreateGood(c, true, entry, known, pending);
    var c2 := CreateBlock(c, true);
    CreateGood(c2, false, entry + [known], known, pending);
    var c3 := CreateBlock(c2, false);
    CreateGood(c3, false, entry + [known] + [known], known, pending);
    GoodSame(IfBlocks(c), IfBlocks(c), e, pending, pending + {|c.blocks| + 1});
  }

  lemma ThenStartGood(s: Stmt, c: Builder, names: set<string>, entry: Entry, pending: set<BlockId>)
    returns (known: set<nat>)
    requires s.IfStmt? && TypeOf(s.cond, names).Some? && Slots(c, entry, names) && Good(c, entry, pending) && Open(c)
    ensures GenExpr(s.cond, c).1.Some?
    ensures Available(c, entry) <= known
    ensures Good(ThenStart(s, c), entry + [known] + [known] + [known], pending + {|c.blocks| + 1})
    ensures Available(ThenStart(s, c), entry + [known] + [known] + [known]) == known
    ensures Slots(ThenStart(s, c), entry + [known] + [known] + [known], names)
    ensures HasTerminator(ThenStart(s, c).blocks[c.cur])
  {
    hide GenExpr, IfHead, Good, InstrGood, Slots, Available, HasTerminator, TypeOf, Open, EmptyAt, AllBound;
    SlotsLength(c, entry, names);
    ExprGood(s.cond, c, names, entry, pending);
    var (c1, o) := GenExpr(s.cond, c);
    known := IfHeadGood(c1, o.value, names, entry, pending);
    var e := entry + [known] + [known] + [known];
    assert e[|c.blocks|] == known;
    ThenStartEmpty(s, c);
    EmptyAvailable(ThenStart(s, c), e);
    SlotsBound(c, entry, names);
    ThenStartBound(s, c, names);
    SameScopeSlots(c, entry, ThenStart(s, c), e, names);
  }

  lemma EmptyAvailable(c: Builder, entry: Entry)
    requires EmptyAt(c, c.cur) && |entry| == |c.blocks|
    ensures Available(c, entry) == entry[c.cur]
  {
  }

  /** Closing a branch and moving on to an empty block. */
  lemma CloseGood(c: Builder, m: BlockId, following: BlockId, entry: Entry, pending: set<BlockId>)
    requires Good(c, entry, pending + {following}) && m < |c.blocks| && following < |c.blocks|
    requires Open(c) ==> entry[m] <= Available(c, entry)
    ensures Good(SetInsertPoint(InsertInto(BranchIfOpen(c, m), following), following), entry,
                 if Open(c) && m != following then pending + {m} else pending)
  {
    var p := pending + {following};
    var q := if Open(c) then p + {m} else p;
    GoodSame(c, c, entry, p, q);
    if Open(c) {
      EmitGood(c, Br(m), entry, q);
    }
    GoodSame(BranchIfOpen(c, m), SetInsertPoint(InsertInto(BranchIfOpen(c, m), following), following), entry, q,
             if Open(c) && m != following then pending + {m} else pending);
  }

  /** From the end of the then branch to the start of the else branch. */
  lemma ElseStartGood(s: Stmt, c: Builder, names: set<string>, known: set<nat>, entry: Entry, pending: set<BlockId>)
    requires s.IfStmt? && GenExpr(s.cond, c).1.Some? && DeclaredIn(s.thn) !! names
    requires |entry| == |ThenEnd(s, c).blocks| && Slots(ThenStart(s, c), entry[..|c.blocks| + 3], names)
    requires Available(ThenStart(s, c), entry[..|c.blocks| + 3]) == known
    requires entry[|c.blocks| + 1] == known && entry[|c.blocks| + 2] == known
    requires Good(ThenEnd(s, c), entry, pending + {|c.blocks| + 1}) && known <= Available(ThenEnd(s, c), entry)
    ensures Good(ElseStart(s, c), entry, if Open(ThenEnd(s, c)) then pending + {|c.blocks| + 2} else pending)
    ensures |entry| == |ElseStart(s, c).blocks|
    ensures Available(ElseStart(s, c), entry) == known && Slots(ElseStart(s, c), entry, names)
  {
    CloseGood(ThenEnd(s, c), |c.blocks| + 2, |c.blocks| + 1, entry, pending);
    ElseStartEmpty(s, c);
    assert Available(ElseStart(s, c), entry) == known;
    BlockScopes(s.thn, ThenStart(s, c));
    BlockGrew(s.thn, ThenStart(s, c));
    assert ElseStart(s, c).scopes == ThenEnd(s, c).scopes && ThenStart(s, c).next <= ElseStart(s, c).next;
    hide Good, InstrGood, GenExpr, ThenStart, ThenEnd, ElseStart, Available, Open, EmptyAt;
    SlotsKept(ThenStart(s, c), entry[..|c.blocks| + 3], ElseStart(s, c), entry, names, DeclaredIn(s.thn));
  }

  /** Inserted blocks numbered n and up, and the block at home, have terminators, except one. */
  ghost predicate Sealed(d: Builder, n: nat, home: BlockId, except: BlockId) {
    && home < n <= |d.blocks|
    && HasTerminator(d.blocks[home])
    && forall b :: b in d.layout && n <= b < |d.blocks| && b != except ==> HasTerminator(d.blocks[b])
  }

  lemma BranchCloses(c: Builder, m: BlockId)
    ensures HasTerminator(BranchIfOpen(c, m).blocks[c.cur])
    ensures BranchIfOpen(c, m).blocks == c.blocks[c.cur := BranchIfOpen(c, m).blocks[c.cur]]
    ensures BranchIfOpen(c, m).layout == c.layout
  {
  }

  /** Closing the current block leaves only the next one open. */
  lemma CloseSeals(c: Builder, m: BlockId, following: BlockId, n: nat, home: BlockId)
    requires Sealed(c, n, home, c.cur) && n <= c.cur && following < |c.blocks|
    ensures Sealed(SetInsertPoint(InsertInto(BranchIfOpen(c, m), following), following), n, home, following)
  {
    BranchCloses(c, m);
    hide BranchIfOpen, HasTerminator;
  }

  /** Generating a block from an open builder keeps everything else sealed. */
  lemma BlockSeals(ss: seq<Stmt>, c: Builder, n: nat, home: BlockId)
    requires Sealed(c, n, home, c.cur) && n <= c.cur
    requires Finished(c, GenBlock(ss, c).0)
    ensures Sealed(GenBlock(ss, c).0, n, home, GenBlock(ss, c).0.cur) && n <= GenBlock(ss, c).0.cur
  {
    BlockGrew(ss, c);
    var d := GenBlock(ss, c).0;
    hide GenBlock, HasTerminator;
    forall b | b in d.layout && n <= b < |d.blocks| && b != d.cur
      ensures HasTerminator(d.blocks[b])
    {
      if b < |c.blocks| && b != c.cur {
        var k :| 0 <= k < |d.layout| && d.layout[k] == b;
        assert k < |c.layout| && c.layout[k] == b;
      }
    }
  }

  lemma BlockLeavesOut(ss: seq<Stmt>, c: Builder, b: BlockId)
    requires b < |c.blocks| && b !in c.layout
    ensures b !in GenBlock(ss, c).0.layout
  {
    BlockGrew(ss, c);
    hide GenBlock;
  }

  lemma ThenStartSealed(s: Stmt, c: Builder)
    requires s.IfStmt? && GenExpr(s.cond, c).1.Some? && HasTerminator(ThenStart(s, c).blocks[c.cur])
    requires forall b :: b in c.layout ==> b < |c.blocks|
    ensures Sealed(ThenStart(s, c), |c.blocks|, c.cur, |c.blocks|)
  {
    hide ThenStart, HasTerminator, GenExpr, Sealed;
    OneMoreSealed(ThenStart(s, c), c.layout, |c.blocks|, c.cur);
  }

  lemma OneMoreSealed(d: Builder, before: seq<BlockId>, n: nat, home: BlockId)
    requires d.layout == before + [n] && home < n <= |d.blocks| && HasTerminator(d.blocks[home])
    requires forall b :: b in before ==> b < n
    ensures Sealed(d, n, home, n)
  {
    hide HasTerminator;
  }

  lemma ElseEndSealed(s: Stmt, c: Builder, n: nat, home: BlockId)
    requires s.IfStmt? && GenExpr(s.cond, c).1.Some?
    requires Sealed(ElseStart(s, c), n, home, n + 1) && ElseStart(s, c).cur == n + 1
    requires Finished(ElseStart(s, c), ElseEnd(s, c))
    ensures Sealed(ElseEnd(s, c), n, home, ElseEnd(s, c).cur) && n <= ElseEnd(s, c).cur
  {
    hide GenExpr, GenBlock, ElseStart, ElseEnd, Finished, Sealed;
    ElseEndUnfold(s, c);
    SealedFrom(ElseStart(s, c), n, home);
    if s.els.Else? {
      BlockSeals(s.els.stmts, ElseStart(s, c), n, home);
    }
  }

  lemma ThenEndSealed(s: Stmt, c: Builder)
    requires s.IfStmt? && GenExpr(s.cond, c).1.Some? && HasTerminator(ThenStart(s, c).blocks[c.cur])
    requires forall b :: b in c.layout ==> b < |c.blocks|
    requires Finished(ThenStart(s, c), ThenEnd(s, c))
    ensures Sealed(ThenEnd(s, c), |c.blocks|, c.cur, ThenEnd(s, c).cur) && |c.blocks| <= ThenEnd(s, c).cur
  {
    hide GenExpr, GenBlock, ThenStart, ThenEnd, HasTerminator, Finished, Sealed;
    ThenStartSealed(s, c);
    ThenEndUnfold(s, c);
    BlockSeals(s.thn, ThenStart(s, c), |c.blocks|, c.cur);
  }

  lemma IfEndSealed(s: Stmt, c: Builder, names: set<string>)
    requires s.IfStmt? && StmtOk(s, names) && AllBound(c.scopes, c.next, names) && Open(c)
    requires GenExpr(s.cond, c).1.Some?
    requires Sealed(ElseEnd(s, c), |c.blocks|, c.cur, ElseEnd(s, c).cur) && |c.blocks| <= ElseEnd(s, c).cur
    ensures Sealed(GenIf(s, c).0, |c.blocks|, c.cur, GenIf(s, c).0.cur)
  {
    hide GenExpr, GenIf, GenStmt, StmtOk, AllBound, ElseEnd, Sealed, BranchIfOpen, Open;
    IfShape(s, c, names);
    if Completed(s.els) {
      CloseSeals(ElseEnd(s, c), |c.blocks| + 2, |c.blocks| + 2, |c.blocks|, c.cur);
    }
  }

  /** All blocks of the if but the one it ends in have their terminators. */
  lemma IfFinished(s: Stmt, c: Builder, names: set<string>)
    requires s.IfStmt? && StmtOk(s, names) && AllBound(c.scopes, c.next, names) && Open(c)
    requires forall b :: b in c.layout ==> b < |c.blocks|
    requires GenExpr(s.cond, c).1.Some? && HasTerminator(ThenStart(s, c).blocks[c.cur])
    requires Finished(ThenStart(s, c), ThenEnd(s, c)) && Finished(ElseStart(s, c), ElseEnd(s, c))
    ensures Finished(c, GenIf(s, c).0)
  {
    hide GenExpr, GenIf, StmtOk, AllBound, ThenStart, ThenEnd, ElseStart, ElseEnd, HasTerminator, Finished, Sealed;
    hide Open;
    ThenEndSealed(s, c);
    ElseStartSealed(s, c);
    ElseEndSealed(s, c, |c.blocks|, c.cur);
    IfEndSealed(s, c, names);
    SealedFinished(c, GenIf(s, c).0);
  }

  lemma SealedFrom(c: Builder, n: nat, home: BlockId)
    requires Sealed(c, n, home, n + 1) && c.cur == n + 1
    ensures Sealed(c, n, home, c.cur) && n <= c.cur
  {
  }

  lemma ElseStartSealed(s: Stmt, c: Builder)
    requires s.IfStmt? && GenExpr(s.cond, c).1.Some?
    requires Sealed(ThenEnd(s, c), |c.blocks|, c.cur, ThenEnd(s, c).cur) && |c.blocks| <= ThenEnd(s, c).cur
    ensures Sealed(ElseStart(s, c), |c.blocks|, c.cur, |c.blocks| + 1)
  {
    hide GenExpr, ThenEnd, Sealed, IfMiddle, ThenStart;
    IfMiddleSeals(ThenEnd(s, c), |c.blocks|, c.cur);
  }

  lemma IfMiddleSeals(c: Builder, n: BlockId, home: BlockId)
    requires Sealed(c, n, home, c.cur) && n <= c.cur && n + 2 < |c.blocks|
    ensures Sealed(IfMiddle(c, n), n, home, n + 1)
  {
    hide Sealed, BranchIfOpen;
    CloseSeals(c, n + 2, n + 1, n, home);
  }

  lemma SealedFinished(c: Builder, d: Builder)
    requires Sealed(d, |c.blocks|, c.cur, d.cur)
    ensures Finished(c, d)
  {
  }

  lemma ExtendedTransitive(c: Builder, e1: Entry, d: Builder, e2: Entry, f: Builder, e3: Entry, pending: set<BlockId>,
                           m: set<string>, n: set<string>)
    requires Extended(c, e1, d, e2, pending, m) && Extended(d, e2, f, e3, pending, n)
    requires GrewFrom(c, d, |c.blocks|) && GrewFrom(d, f, |d.blocks|)
    ensures Extended(c, e1, f, e3, pending, n)
  {
    forall b | b in f.layout && |c.blocks| <= b < |f.blocks| && b != f.cur
      ensures HasTerminator(f.blocks[b])
    {
      if b < |d.blocks| {
        var k :| 0 <= k < |f.layout| && f.layout[k] == b;
        assert k < |d.layout| && d.layout[k] == b;
      }
    }
    hide Good, Slots, Available;
  }

  ghost predicate Ready(c: Builder, entry: Entry, pending: set<BlockId>, names: set<string>) {
    && Slots(c, entry, names) && Good(c, entry, pending) && Open(c)
    && (forall b :: b in c.layout ==> b < |c.blocks|)
  }

  lemma ReadyParts(c: Builder, entry: Entry, pending: set<BlockId>, names: set<string>)
    requires Ready(c, entry, pending, names)
    ensures Slots(c, entry, names) && Good(c, entry, pending) && Open(c) && |entry| == |c.blocks|
    ensures forall b :: b in c.layout ==> b < |c.blocks|
  {
  }

  lemma MakesReady(c: Builder, entry: Entry, pending: set<BlockId>, names: set<string>)
    requires Slots(c, entry, names) && Good(c, entry, pending) && Open(c)
    requires forall b :: b in c.layout ==> b < |c.blocks|
    ensures Ready(c, entry, pending, names)
  {
  }

  /** The layout names existing blocks only. */
  lemma LayoutKept(c: Builder, d: Builder, n: nat)
    requires GrewFrom(c, d, n) && forall b :: b in c.layout ==> b < |c.blocks|
    ensures forall b :: b in d.layout ==> b < |d.blocks|
  {
    forall k | 0 <= k < |d.layout|
      ensures d.layout[k] < |d.blocks|
    {
      if k < |c.layout| {
        assert c.layout[k] == d.layout[k] && d.layout[k] in c.layout;
      }
    }
  }

  lemma {:induction false} StmtGraph(s: Stmt, c: Builder, names: set<string>, entry: Entry, pending: set<BlockId>)
    returns (entry': Entry)
    requires StmtOk(s, names) && Ready(c, entry, pending, names)
    ensures Extended(c, entry, GenStmt(s, c).0, entry', pending, After(s, names))
    decreases s, 2
  {
    match s
    case ExprStmt(e) =>
      ExprStmtGood(e, c, names, entry, pending);
      SameBlockFinished(c, GenExpr(e, c).0);
      entry' := entry;
    case VarStmt(x, init) =>
      VarGood(x, init.value, c, names, entry, pending);
      entry' := entry;
    case IfStmt(_, _, _) =>
      entry' := IfGraph(s, c, names, entry, pending);
    case ReturnStmt(v) =>
      ReturnGood(v.value, c, names, entry, pending);
      entry' := entry;
  }

  lemma ThenReady(s: Stmt, c: Builder, names: set<string>, entry: Entry, pending: set<BlockId>)
    returns (known: set<nat>, e1: Entry)
    requires s.IfStmt? && TypeOf(s.cond, names).Some? && Ready(c, entry, pending, names)
    ensures GenExpr(s.cond, c).1.Some? && Available(c, entry) <= known
    ensures e1 == entry + [known] + [known] + [known] && |e1| == |c.blocks| + 3
    ensures Ready(ThenStart(s, c), e1, pending + {|c.blocks| + 1}, names)
    ensures Available(ThenStart(s, c), e1) == known && HasTerminator(ThenStart(s, c).blocks[c.cur])
  {
    assert |entry| == |c.blocks|;
    hide Good, InstrGood, Slots, Available, TypeOf, GenExpr;
    known := ThenStartGood(s, c, names, entry, pending);
    e1 := entry + [known] + [known] + [known];
    ThenStartEmpty(s, c);
  }

  lemma {:induction false} IfGraph(s: Stmt, c: Builder, names: set<string>, entry: Entry, pending: set<BlockId>)
    returns (entry': Entry)
    requires s.IfStmt? && StmtOk(s, names) && Ready(c, entry, pending, names)
    ensures Extended(c, entry, GenIf(s, c).0, entry', pending, names)
    decreases s, 1
  {
    assert Open(c) && AllBound(c.scopes, c.next, names) by { SlotsBound(c, entry, names); }
    IfShape(s, c, names);
    hide Good, InstrGood, Slots, Available, TypeOf, GenExpr, GenIf, GenBlock, Finished, StmtOk, AllBound, HasTerminator;
    hide ThenStart, ElseStart, ElseEnd, ThenEnd;
    var known, e2 := ThenGraph(s, c, names, entry, pending);
    entry' := ElseGraph(s, c, names, known, e2, pending);
    IfFinished(s, c, names);
  }

  /** From the condition to the start of the else branch. */
  lemma {:induction false} ThenGraph(s: Stmt, c: Builder, names: set<string>, entry: Entry, pending: set<BlockId>)
    returns (known: set<nat>, e2: Entry)
    requires s.IfStmt? && StmtOk(s, names) && Ready(c, entry, pending, names)
    ensures GenExpr(s.cond, c).1.Some? && HasTerminator(ThenStart(s, c).blocks[c.cur])
    ensures Finished(ThenStart(s, c), ThenEnd(s, c))
    ensures Available(c, entry) <= known && entry <= e2 && |e2| == |ElseStart(s, c).blocks|
            && e2[|c.blocks| + 2] == known
    ensures Good(ElseStart(s, c), e2, if Open(ThenEnd(s, c)) then pending + {|c.blocks| + 2} else pending)
    ensures Available(ElseStart(s, c), e2) == known && Slots(ElseStart(s, c), e2, names)
    decreases s, 0
  {
    hide Good, InstrGood, Slots, Available, TypeOf, GenExpr, GenIf, GenBlock, Finished, BlockOk, HasTerminator;
    hide ThenStart, ElseStart, ThenEnd, StmtOk, Open, Ready, Declared, DeclaredIn;
    IfParts(s, names);
    ReadyParts(c, entry, pending, names);
    var e1;
    known, e1 := ThenReady(s, c, names, entry, pending);
    ReadyParts(ThenStart(s, c), e1, pending + {|c.blocks| + 1}, names);
    e2 := BlockGraph(s.thn, ThenStart(s, c), names, e1, pending + {|c.blocks| + 1});
    ThenEndUnfold(s, c);
    assert e2[..|c.blocks| + 3] == e1;
    assert e2[|c.blocks| + 1] == e1[|c.blocks| + 1] && e2[|c.blocks| + 2] == e1[|c.blocks| + 2];
    assert entry <= e1;
    ElseStartGood(s, c, names, known, e2, pending);
  }

  lemma IfParts(s: Stmt, names: set<string>)
    requires s.IfStmt? && StmtOk(s, names)
    ensures TypeOf(s.cond, names).Some? && DeclaredIn(s.thn) !! names && BlockOk(s.thn, names)
    ensures BlockOk(ElseOf(s.els), names) && DeclaredIn(ElseOf(s.els)) !! names && BranchesOk(s.thn, s.els)
  {
  }

  /** From the start of the else branch to the end of the if. */
  lemma {:induction false} ElseGraph(s: Stmt, c: Builder, names: set<string>, known: set<nat>, entry: Entry,
                                     pending: set<BlockId>)
    returns (entry': Entry)
    requires s.IfStmt? && StmtOk(s, names) && AllBound(c.scopes, c.next, names) && Open(c)
    requires GenExpr(s.cond, c).1.Some? && forall b :: b in c.layout ==> b < |c.blocks|
    requires Good(ElseStart(s, c), entry, if Open(ThenEnd(s, c)) then pending + {|c.blocks| + 2} else pending)
    requires |entry| == |ElseStart(s, c).blocks| && Available(ElseStart(s, c), entry) == known
    requires Slots(ElseStart(s, c), entry, names) && entry[|c.blocks| + 2] == known
    ensures |entry'| == |GenIf(s, c).0.blocks| && entry <= entry' && Good(GenIf(s, c).0, entry', pending)
    ensures known <= Available(GenIf(s, c).0, entry') && Slots(GenIf(s, c).0, entry', names)
    ensures Finished(ElseStart(s, c), ElseEnd(s, c))
    decreases s, 0
  {
    assert BlockOk(ElseOf(s.els), names) && DeclaredIn(ElseOf(s.els)) !! names && BranchesOk(s.thn, s.els);
    IfShape(s, c, names);
    ElseStartLayout(s, c);
    ElseStartEmpty(s, c);
    hide Good, InstrGood, Slots, Available, TypeOf, GenExpr, GenIf, GenBlock, Finished, BlockOk, AllBound;
    hide HasTerminator, ThenStart, ElseStart, ThenEnd, StmtOk, EmptyAt, Open;
    var p := if Open(ThenEnd(s, c)) then pending + {|c.blocks| + 2} else pending;
    entry' := entry;
    if s.els.Else? {
      entry' := BlockGraph(s.els.stmts, ElseStart(s, c), names, entry, p);
    } else {
      SameBlockFinished(ElseStart(s, c), ElseEnd(s, c));
    }
    ElseEndGood(s, c, names, known, entry, entry', pending);
  }

  lemma ElseStartLayout(s: Stmt, c: Builder)
    requires s.IfStmt? && GenExpr(s.cond, c).1.Some? && forall b :: b in c.layout ==> b < |c.blocks|
    ensures forall b :: b in ElseStart(s, c).layout ==> b < |ElseStart(s, c).blocks|
  {
    BlockGrew(s.thn, ThenStart(s, c));
    LayoutKept(ThenStart(s, c), ThenEnd(s, c), |c.blocks| + 3);
    hide ThenEnd, ThenStart, GenExpr;
  }

  lemma ElseEndGood(s: Stmt, c: Builder, names: set<string>, known: set<nat>, entry: Entry, entry': Entry,
                    pending: set<BlockId>)
    requires s.IfStmt? && StmtOk(s, names) && AllBound(c.scopes, c.next, names) && Open(c)
    requires GenExpr(s.cond, c).1.Some?
    requires |entry| == |ElseStart(s, c).blocks| && Available(ElseStart(s, c), entry) == known
    requires Slots(ElseStart(s, c), entry, names) && entry[|c.blocks| + 2] == known
    requires |entry'| == |ElseEnd(s, c).blocks| && entry <= entry' && known <= Available(ElseEnd(s, c), entry')
    requires Good(ElseEnd(s, c), entry', if Open(ThenEnd(s, c)) then pending + {|c.blocks| + 2} else pending)
    ensures |entry'| == |GenIf(s, c).0.blocks| && Good(GenIf(s, c).0, entry', pending)
    ensures known <= Available(GenIf(s, c).0, entry') && Slots(GenIf(s, c).0, entry', names)
  {
    hide Good, InstrGood, TypeOf, GenExpr, GenIf, GenBlock, BlockOk, StmtOk, AllBound, Open, ThenStart, ElseStart;
    hide ThenEnd, ElseEnd, BranchIfOpen, SameOutside, Slots, EmptyAt;
    IfShape(s, c, names);
    IfEndScopes(s, c, names);
    ElseEmptyBlocks(s, c);
    var n := |c.blocks|;
    if Completed(s.els) {
      GoodSame(ElseEnd(s, c), ElseEnd(s, c), entry', if Open(ThenEnd(s, c)) then pending + {n + 2} else pending,
               pending + {n + 2});
      CloseGood(ElseEnd(s, c), n + 2, n + 2, entry', pending);
      assert GenIf(s, c).0.cur == n + 2;
    }
    SlotsKept(ElseStart(s, c), entry, GenIf(s, c).0, entry', names, DeclaredIn(ElseOf(s.els)));
  }

  lemma IfEndScopes(s: Stmt, c: Builder, names: set<string>)
    requires s.IfStmt? && StmtOk(s, names) && AllBound(c.scopes, c.next, names) && Open(c)
    requires GenExpr(s.cond, c).1.Some?
    ensures SameOutside(ElseStart(s, c).scopes, GenIf(s, c).0.scopes, DeclaredIn(ElseOf(s.els)))
    ensures ElseStart(s, c).next <= GenIf(s, c).0.next
    ensures DeclaredIn(ElseOf(s.els)) !! names
    ensures !Completed(s.els) ==> !Open(ThenEnd(s, c))
  {
    IfEnds(s, c, names);
    IfShape(s, c, names);
    assert ElseStart(s, c).scopes == ThenEnd(s, c).scopes && ElseStart(s, c).next == ThenEnd(s, c).next;
  }

  lemma {:induction false} BlockGraph(ss: seq<Stmt>, c: Builder, names: set<string>, entry: Entry,
                                      pending: set<BlockId>)
    returns (entry': Entry)
    requires BlockOk(ss, names) && Ready(c, entry, pending, names)
    ensures Extended(c, entry, GenBlock(ss, c).0, entry', pending, AfterAll(ss, names))
    ensures Slots(GenBlock(ss, c).0, entry', names)
    decreases ss, 3
  {
    entry' := entry;
    if ss == [] {
      SameBlockFinished(c, c);
    } else {
      SlotsBound(c, entry, names);
      StmtShape(ss[0], c, names);
      StmtGrew(ss[0], c);
      var d := GenStmt(ss[0], c).0;
      LayoutKept(c, d, |c.blocks|);
      hide GenStmt, Good, Available, StmtOk;
      entry' := StmtGraph(ss[0], c, names, entry, pending);
      if |ss| > 1 {
        var e1 := entry';
        entry' := BlockGraph(ss[1..], d, After(ss[0], names), e1, pending);
        BlockGrew(ss[1..], d);
        ExtendedTransitive(c, entry, d, e1, GenBlock(ss[1..], d).0, entry', pending, After(ss[0], names),
                           AfterAll(ss, names));
      } else {
        assert AfterAll(ss, names) == After(ss[0], names);
      }
      AfterAllKeeps(ss, names);
    }
  }
}
