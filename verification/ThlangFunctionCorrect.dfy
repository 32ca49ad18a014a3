/**
  The main theorems about the code generator: what the blocks generated for a
  function compute, for every supported body, every argument list and any number
  of loop rounds, and that they never get stuck.
*/
module ThlangFunctionCorrect {
  import opened Wrappers
  import opened TwosComplement
  import opened ThlangAst
  import opened ThlangSemantics
  import opened ThlangIr
  import opened ThlangCodeGen
  import opened ThlangExprCorrect
  import opened ThlangStructure
  import opened ThlangShape
  import opened ThlangStmtCorrect
  import opened ThlangLoopCorrect

  // ----- loops -----

  predicate IsLoop(s: Stmt) { s.WhileStmt? || s.ForStmt? }

  function Begin(s: Stmt, store: Store): (r: Store)
    requires IsLoop(s) && FinalOk(s, store.Keys)
    ensures r.Keys == store.Keys && LoopOk(s, r.Keys)
  {
    if s.ForStmt? then ExecPart(s.start, store) else store
  }

  lemma LoopEnters(code: Code, s: Stmt, c: Builder, fr: Frame, store: Store) returns (n: nat, fr': Frame)
    requires IsLoop(s) && FinalOk(s, store.Keys) && Represents(c.scopes, c.next, fr, store)
    requires Extends(code, GenStmt(s, c).0.blocks)
    ensures Run(code, Here(c, fr), n) == Decided(s, c, Begin(s, store), fr')
    ensures Represents(c.scopes, c.next, fr', Begin(s, store))
  {
    hide Extends, Represents, GenFor, GenWhile;
    if s.WhileStmt? {
      n, fr' := WhileEnters(code, s, c, fr, store);
    } else {
      n, fr' := ForEnters(code, s, c, fr, store);
    }
  }

  lemma LoopRound(code: Code, s: Stmt, c: Builder, fr: Frame, store: Store) returns (n: nat, fr': Frame)
    requires IsLoop(s) && FinalOk(s, store.Keys) && Represents(c.scopes, c.next, fr, store)
    requires Extends(code, GenStmt(s, c).0.blocks)
    ensures n > 0 && Run(code, Running(BodyBlock(s, c), 0, fr), n) == Decided(s, c, ExecRound(s, store), fr')
    ensures Represents(c.scopes, c.next, fr', ExecRound(s, store))
  {
    hide Extends, Represents, GenFor, GenWhile;
    if s.WhileStmt? {
      n, fr' := WhileRound(code, s, c, fr, store);
    } else {
      n, fr' := ForRound(code, s, c, fr, store);
    }
  }

  lemma LoopExits(code: Code, s: Stmt, c: Builder, names: set<string>, fr: Frame)
    requires IsLoop(s) && FinalOk(s, names) && AllBound(c.scopes, c.next, names)
    requires Extends(code, GenStmt(s, c).0.blocks)
    ensures Step(code, Running(ExitBlock(s, c), 0, fr)) == Done(None, fr)
  {
    LoopExitCode(code, s, c, names);
    hide Extends, GenStmt, AllBound, FinalOk;
    assert code[ExitBlock(s, c)][0] == RetVoid;
  }

  lemma LoopExitCode(code: Code, s: Stmt, c: Builder, names: set<string>)
    requires IsLoop(s) && FinalOk(s, names) && AllBound(c.scopes, c.next, names)
    requires Extends(code, GenStmt(s, c).0.blocks)
    ensures ExitBlock(s, c) < |code| && [RetVoid] <= code[ExitBlock(s, c)]
  {
    hide Extends, GenFor, GenWhile, AllBound, EmitLoopBranch, GenExpr, ForInit, WhileHead, LoopBodyOk, PartOk;
    if s.WhileStmt? {
      WhileExtends(code, s, c, names);
    } else {
      ForExtends(code, s, c, names);
    }
  }

  /** If the source loop ends within n rounds in a store, the machine returns representing that store. */
  lemma {:induction false} LoopEnds(code: Code, s: Stmt, c: Builder, fr: Frame, store: Store, n: nat)
    returns (m: nat, last: Frame)
    requires IsLoop(s) && FinalOk(s, store.Keys) && LoopOk(s, store.Keys) && Represents(c.scopes, c.next, fr, store)
    requires Extends(code, GenStmt(s, c).0.blocks)
    requires ExecLoop(s, store, n).Some?
    ensures Run(code, Decided(s, c, store, fr), m) == Done(None, last)
    ensures Represents(c.scopes, c.next, last, ExecLoop(s, store, n).value)
    decreases n
  {
    hide Extends, Represents, GenStmt, FinalOk, PartOk, AllBound, LoopBodyOk;
    if Holds(s.cond, store) {
      var m1, fr1 := LoopRound(code, s, c, fr, store);
      var m2;
      m2, last := LoopEnds(code, s, c, fr1, ExecRound(s, store), n - 1);
      RunsOn(code, Decided(s, c, store, fr), m1, Decided(s, c, ExecRound(s, store), fr1), m2, Done(None, last));
      m := m1 + m2;
    } else {
      RepresentedBound(c.scopes, c.next, fr, store);
      LoopExits(code, s, c, store.Keys, fr);
      RunOneMore(code, Decided(s, c, store, fr), 0);
      m, last := 1, fr;
    }
  }

  /** If the machine stops within m steps, the source loop ends. */
  lemma {:induction false} LoopStops(code: Code, s: Stmt, c: Builder, fr: Frame, store: Store, m: nat) returns (n: nat)
    requires IsLoop(s) && FinalOk(s, store.Keys) && LoopOk(s, store.Keys) && Represents(c.scopes, c.next, fr, store)
    requires Extends(code, GenStmt(s, c).0.blocks)
    requires !Run(code, Decided(s, c, store, fr), m).Running?
    ensures ExecLoop(s, store, n).Some?
    decreases m
  {
    hide Extends, Represents, GenStmt, FinalOk, PartOk, AllBound, LoopBodyOk;
    n := 0;
    if Holds(s.cond, store) {
      var k, fr1 := LoopRound(code, s, c, fr, store);
      var d := Decided(s, c, ExecRound(s, store), fr1);
      StillRunning(code, Decided(s, c, store, fr), k, d, m);
      n := LoopStops(code, s, c, fr1, ExecRound(s, store), m - k);
      n := n + 1;
    }
  }

  // ----- parameters -----

  function ArgBits(args: seq<Int32>): (r: seq<nat>)
    ensures |r| == |args|
  {
    seq(|args|, i requires 0 <= i < |args| => ToBits(args[i]))
  }

  function StartFrame(args: seq<Int32>): Frame {
    Frame(map[], [], ArgBits(args))
  }

  function ParamStored(c: Builder, params: seq<string>, i: nat): (r: Builder)
    requires i < |params|
    ensures r.next == c.next + 1
  {
    var c1 := EmitTemp(c, Alloca(c.next));
    var c2 := Emit(c1, Instr.Store(Arg(i), Temp(c.next, Pointer)));
    SetValue(c2, params[i], Temp(c.next, Pointer))
  }

  lemma ParamStoredFacts(c: Builder, params: seq<string>, i: nat)
    requires i < |params|
    ensures ParamStored(c, params, i).scopes == Declare(c, params[i]).scopes
    ensures ParamStored(c, params, i).blocks
            == Emit(Declare(c, params[i]), Instr.Store(Arg(i), Temp(c.next, Pointer))).blocks
    ensures ParamStored(c, params, i).cur == c.cur && ParamStored(c, params, i).next == Declare(c, params[i]).next
    ensures Open(ParamStored(c, params, i))
    ensures GenParams(params, i, c) == GenParams(params, i + 1, ParamStored(c, params, i))
  {
    GenParamsUnfolds(c, params, i);
    hide GenParams;
  }

  lemma GenParamsUnfolds(c: Builder, params: seq<string>, i: nat)
    requires i < |params|
    ensures GenParams(params, i, c) == GenParams(params, i + 1, ParamStored(c, params, i))
  {
    hide Emit, EmitTemp, SetValue;
  }

  /** One parameter: a slot is allocated and filled from the argument. */
  lemma ParamRuns(code: Code, params: seq<string>, args: seq<Int32>, i: nat, c: Builder, fr: Frame, s: Store)
    returns (n: nat, fr': Frame)
    requires i < |params| == |args| && fr.args == ArgBits(args)
    requires Represents(c.scopes, c.next, fr, s)
    requires Extends(code, ParamStored(c, params, i).blocks)
    ensures Run(code, Here(c, fr), n) == Here(ParamStored(c, params, i), fr')
    ensures Represents(ParamStored(c, params, i).scopes, ParamStored(c, params, i).next, fr', s[params[i] := args[i]])
    ensures fr'.args == fr.args
  {
    var x, v, at := params[i], args[i], |fr.memory|;
    var c1, fr1 := Declare(c, x), Allocated(c, fr);
    ParamStoredFacts(c, params, i);
    AllocaRepresents(c, fr, s, x);
    EmitExtends(code, c1, Instr.Store(Arg(i), Temp(c.next, Pointer)));
    AllocaStep(code, c, x, fr);
    FreshCell(c, fr, s, x, fr1);
    assert SlotBelow(c1.scopes, c1.next, x);
    assert c.next in fr1.temps && fr1.temps[c.next] == Address(at) && |fr1.memory| == at + 1 && fr1.args == fr.args;
    assert OperandValue(Arg(i), fr1) == Some(Bits(I32, ToBits(v)));
    hide Represents, Extends, Declare, Allocated, ParamStored, Step, GetValue, CellOf, OperandValue;
    InitRepresents(c1.scopes, c1.next, fr1, s, x, v, at);
    StoreStep(code, c1, Arg(i), c.next, at, ToBits(v), fr1);
    RunOneMore(code, Here(c, fr), 0);
    RunOneMore(code, Here(c, fr), 1);
    n, fr' := 2, fr1.(memory := fr1.memory[at := Some(ToBits(v))]);
    assert Here(ParamStored(c, params, i), fr') == Here(Emit(c1, Instr.Store(Arg(i), Temp(c.next, Pointer))), fr');
  }

  lemma ParamGrew(c: Builder, params: seq<string>, i: nat)
    requires i < |params|
    ensures GrewFrom(c, ParamStored(c, params, i), |c.blocks|)
  {
  }

  lemma {:induction false} ParamsGrew(params: seq<string>, i: nat, c: Builder)
    requires i <= |params| && Open(c)
    ensures GrewFrom(c, GenParams(params, i, c), |c.blocks|) && Open(GenParams(params, i, c))
    decreases |params| - i
  {
    if i < |params| {
      hide GrewFrom, ParamStored, Open;
      ParamStoredFacts(c, params, i);
      var d := ParamStored(c, params, i);
      ParamGrew(c, params, i);
      ParamsGrew(params, i + 1, d);
      ParamGrewTransitive(c, d, GenParams(params, i + 1, d));
    }
  }

  lemma ParamGrewTransitive(c: Builder, d: Builder, e: Builder)
    requires GrewFrom(c, d, |c.blocks|) && GrewFrom(d, e, |d.blocks|)
    ensures GrewFrom(c, e, |c.blocks|)
  {
    GrewBelow(d, e, |d.blocks|, |c.blocks|);
    GrewTransitive(c, d, e, |c.blocks|);
  }

  lemma BindOneMore(params: seq<string>, args: seq<Int32>, i: nat)
    requires i < |params| == |args|
    ensures BindParams(params[..i + 1], args[..i + 1]) == BindParams(params[..i], args[..i])[params[i] := args[i]]
  {
    assert params[..i + 1][..i] == params[..i] && args[..i + 1][..i] == args[..i];
  }

  lemma {:induction false} ParamsRun(code: Code, params: seq<string>, args: seq<Int32>, i: nat, c: Builder, fr: Frame)
    returns (n: nat, fr': Frame)
    requires i <= |params| == |args| && fr.args == ArgBits(args)
    requires Represents(c.scopes, c.next, fr, BindParams(params[..i], args[..i])) && Open(c)
    requires Extends(code, GenParams(params, i, c).blocks)
    ensures Run(code, Here(c, fr), n) == Here(GenParams(params, i, c), fr')
    ensures Represents(GenParams(params, i, c).scopes, GenParams(params, i, c).next, fr', BindParams(params, args))
    decreases |params| - i
  {
    hide Represents, Extends, ParamStored, Open, GrewFrom, BindParams, Run;
    if i == |params| {
      assert params[..i] == params && args[..i] == args;
      n, fr' := 0, fr;
      NoSteps(code, Here(c, fr));
    } else {
      hide GenParams;
      var d := ParamStored(c, params, i);
      ParamStoredFacts(c, params, i);
      ParamsGrew(params, i + 1, d);
      GrewExtends(code, d, GenParams(params, i + 1, d), |d.blocks|);
      BindOneMore(params, args, i);
      var n1, fr1 := ParamRuns(code, params, args, i, c, fr, BindParams(params[..i], args[..i]));
      var n2;
      n2, fr' := ParamsRun(code, params, args, i + 1, d, fr1);
      RunsOn(code, Here(c, fr), n1, Here(d, fr1), n2, Here(GenParams(params, i, c), fr'));
      n := n1 + n2;
    }
  }

  // ----- functions -----

  /** The builder before the last statement of the body. */
  function BeforeFinal(f: Function, next: nat, outer: seq<Scope>): Builder
    requires f.body != []
  {
    GenBlock(Front(f.body), GenParams(f.params, 0, EntryCtx(next, outer))).0
  }

  lemma {:induction false} BlockSplits(ss: seq<Stmt>, c: Builder)
    requires ss != []
    ensures GenBlock(ss, c).0 == GenStmt(Final(ss), GenBlock(Front(ss), c).0).0
    decreases |ss|
  {
    if |ss| > 1 {
      var d := GenStmt(ss[0], c).0;
      BlockSplits(ss[1..], d);
      assert Final(ss[1..]) == Final(ss) && Front(ss)[1..] == Front(ss[1..]) && Front(ss)[0] == ss[0];
      hide GenStmt;
      if |ss| == 2 {
        assert Front(ss[1..]) == [];
      }
    }
  }

  /** Code of function f, generated after other functions left their numbers and scopes behind. */
  function CodeOf(f: Function, next: nat, outer: seq<Scope>): Code {
    GenFunction(f, next, outer).blocks
  }

  function Start(args: seq<Int32>): Config {
    Running(0, 0, StartFrame(args))
  }

  predicate Supported(f: Function) {
    BodyOk(f.body, ParamNames(f.params))
  }

  /** The variables in scope at the end of the body. */
  function FinalNames(f: Function): set<string>
    requires f.body != []
  {
    AfterAll(Front(f.body), ParamNames(f.params))
  }

  /**
    How the machine has to end for a result of the source: with the bits of the
    value, or returning nothing from a memory that represents the final store.
  */
  ghost predicate Agrees(f: Function, next: nat, outer: seq<Scope>, k: Config, r: Result)
    requires f.body != []
  {
    match r
    case ReturnValue(v) => k.Done? && k.result == Some(ToBits(v))
    case ReturnVoid(s) =>
      && k.Done? && k.result == None && s.Keys == FinalNames(f)
      && Represents(BeforeFinal(f, next, outer).scopes, BeforeFinal(f, next, outer).next, k.last, s)
  }

  /** Code of which the code generated for f is a part. */
  ghost predicate Contains(code: Code, f: Function, next: nat, outer: seq<Scope>) {
    Extends(code, GenFunction(f, next, outer).blocks)
  }

  /** From the entry block to the last statement, unless a branch returned earlier. */
  lemma FrontRuns(code: Code, f: Function, args: seq<Int32>, next: nat, outer: seq<Scope>) returns (n: nat, k: Config)
    requires Supported(f) && |args| == |f.params| && Contains(code, f, next, outer)
    ensures Run(code, Start(args), n) == k
    ensures match ExecBlock(Front(f.body), BindParams(f.params, args))
            case Returned(v) => k.Done? && k.result == Some(ToBits(v))
            case Next(s) =>
              && k.Running? && k == Here(BeforeFinal(f, next, outer), k.frame) && s.Keys == FinalNames(f)
              && Represents(BeforeFinal(f, next, outer).scopes, BeforeFinal(f, next, outer).next, k.frame, s)
    ensures Extends(code, GenStmt(Final(f.body), BeforeFinal(f, next, outer)).0.blocks)
    ensures Open(BeforeFinal(f, next, outer))
  {
    var c0 := EntryCtx(next, outer);
    var c1 := GenParams(f.params, 0, c0);
    var c2 := BeforeFinal(f, next, outer);
    hide GenStmt, GenParams, GenBlock, GrewFrom;
    BlockSplits(f.body, c1);
    assert Extends(code, GenStmt(Final(f.body), c2).0.blocks);
    StmtGrew(Final(f.body), c2);
    GrewExtends(code, c2, GenStmt(Final(f.body), c2).0, |c2.blocks|);
    BlockGrew(Front(f.body), c1);
    GrewExtends(code, c1, c2, |c1.blocks|);
    n, k := FrontRunsFrom(code, f, args, next, outer);
  }

  lemma FrontRunsFrom(code: Code, f: Function, args: seq<Int32>, next: nat, outer: seq<Scope>)
    returns (n: nat, k: Config)
    requires Supported(f) && |args| == |f.params|
    requires Extends(code, BeforeFinal(f, next, outer).blocks)
    requires Extends(code, GenParams(f.params, 0, EntryCtx(next, outer)).blocks)
    ensures Run(code, Start(args), n) == k
    ensures match ExecBlock(Front(f.body), BindParams(f.params, args))
            case Returned(v) => k.Done? && k.result == Some(ToBits(v))
            case Next(s) =>
              && k.Running? && k == Here(BeforeFinal(f, next, outer), k.frame) && s.Keys == FinalNames(f)
              && Represents(BeforeFinal(f, next, outer).scopes, BeforeFinal(f, next, outer).next, k.frame, s)
    ensures Open(BeforeFinal(f, next, outer))
  {
    hide GenParams, GenBlock, Represents, Extends, EntryCtx, StartFrame, Open, GrewFrom, AllBound, BindParams, BlockOk;
    hide ExecBlock, BeforeFinal, Run, Keeps;
    var c0 := EntryCtx(next, outer);
    var c1 := GenParams(f.params, 0, c0);
    var fr0 := StartFrame(args);
    AtTheStart(f, args, next, outer);
    BeforeFinalIs(f, next, outer);
    ParamsGrew(f.params, 0, c0);
    var n1, fr1 := ParamsRun(code, f.params, args, 0, c0, fr0);
    var s1 := BindParams(f.params, args);
    var n2, k2 := BlockCorrect(code, Front(f.body), c1, fr1, s1);
    RunsOn(code, Start(args), n1, Here(c1, fr1), n2, k2);
    n, k := n1 + n2, k2;
    RepresentedBound(c1.scopes, c1.next, fr1, s1);
    BlockShape(Front(f.body), c1, s1.Keys);
  }

  lemma AtTheStart(f: Function, args: seq<Int32>, next: nat, outer: seq<Scope>)
    requires |args| == |f.params|
    ensures var c0, fr0 := EntryCtx(next, outer), StartFrame(args);
            && Represents(c0.scopes, c0.next, fr0, BindParams(f.params[..0], args[..0]))
            && Here(c0, fr0) == Start(args) && Open(c0) && fr0.args == ArgBits(args)
  {
  }

  lemma BeforeFinalIs(f: Function, next: nat, outer: seq<Scope>)
    requires f.body != []
    ensures BeforeFinal(f, next, outer) == GenBlock(Front(f.body), GenParams(f.params, 0, EntryCtx(next, outer))).0
  {
  }

  /** The last statement: a return or a loop. */
  lemma FinalReturns(code: Code, s: Stmt, c: Builder, fr: Frame, store: Store) returns (n: nat, k: Config)
    requires s.ReturnStmt? && FinalOk(s, store.Keys) && Represents(c.scopes, c.next, fr, store)
    requires Extends(code, GenStmt(s, c).0.blocks)
    ensures Run(code, Here(c, fr), n) == k && k.Done?
    ensures s.value.Some? ==> k.result == Some(ToBits(Eval(s.value.value, store).n))
    ensures s.value.None? ==> k == Done(None, fr)
  {
    if s.value.Some? {
      n, k := ReturnCorrect(code, s.value.value, c, fr, store);
    } else {
      StepAppended(code, c, RetVoid, fr);
      RunOneMore(code, Here(c, fr), 0);
      n, k := 1, Done(None, fr);
    }
  }

  /** The end of the machine that a result of the last statement asks for. */
  ghost predicate EndsAs(c: Builder, k: Config, r: Result) {
    match r
    case ReturnValue(v) => k.Done? && k.result == Some(ToBits(v))
    case ReturnVoid(s) => k.Done? && k.result == None && Represents(c.scopes, c.next, k.last, s)
  }

  lemma FinalRuns(code: Code, s: Stmt, c: Builder, fr: Frame, store: Store, n: nat) returns (m: nat, k: Config)
    requires FinalOk(s, store.Keys) && Represents(c.scopes, c.next, fr, store)
    requires Extends(code, GenStmt(s, c).0.blocks) && ExecFinal(s, store, n).Some?
    ensures Run(code, Here(c, fr), m) == k && EndsAs(c, k, ExecFinal(s, store, n).value)
    ensures ExecFinal(s, store, n).value.ReturnVoid? ==> ExecFinal(s, store, n).value.store.Keys == store.Keys
  {
    hide Represents, Extends, GenStmt;
    if s.ReturnStmt? {
      m, k := FinalReturns(code, s, c, fr, store);
    } else {
      var m1, fr1 := LoopEnters(code, s, c, fr, store);
      var m2, last := LoopEnds(code, s, c, fr1, Begin(s, store), n);
      k := Done(None, last);
      RunsOn(code, Here(c, fr), m1, Decided(s, c, Begin(s, store), fr1), m2, k);
      m := m1 + m2;
    }
  }

  lemma FinalStops(code: Code, s: Stmt, c: Builder, fr: Frame, store: Store, m: nat) returns (n: nat)
    requires FinalOk(s, store.Keys) && Represents(c.scopes, c.next, fr, store)
    requires Extends(code, GenStmt(s, c).0.blocks) && !Run(code, Here(c, fr), m).Running?
    ensures ExecFinal(s, store, n).Some?
  {
    hide Represents, Extends, GenStmt;
    n := 0;
    if IsLoop(s) {
      var m1, fr1 := LoopEnters(code, s, c, fr, store);
      var d := Decided(s, c, Begin(s, store), fr1);
      StillRunning(code, Here(c, fr), m1, d, m);
      n := LoopStops(code, s, c, fr1, Begin(s, store), m - m1);
    }
  }

  /** A run that is still going after m1 steps has to stop later. */
  lemma StillRunning(code: Code, a: Config, m1: nat, b: Config, m: nat)
    requires Run(code, a, m1) == b && b.Running? && !Run(code, a, m).Running?
    ensures m1 < m && !Run(code, b, m - m1).Running?
  {
    if m <= m1 {
      RunAdds(code, a, m, m1 - m);
      EndedStays(code, Run(code, a, m), m1 - m);
      assert false;
    } else {
      RunAdds(code, a, m1, m - m1);
    }
  }

  /** Whatever the source computes, the generated code computes. */
  lemma FunctionRuns(code: Code, f: Function, args: seq<Int32>, next: nat, outer: seq<Scope>, n: nat) returns (m: nat)
    requires Supported(f) && |args| == |f.params| && Contains(code, f, next, outer) && ExecFunction(f, args, n).Some?
    ensures Agrees(f, next, outer, Run(code, Start(args), m), ExecFunction(f, args, n).value)
  {
    hide BeforeFinal, Represents, Extends, GenStmt, BlockOk, ExecBlock, FinalOk, ExecFinal;
    var m1, k := FrontRuns(code, f, args, next, outer);
    m := m1;
    match ExecBlock(Front(f.body), BindParams(f.params, args))
    case Returned(_) =>
    case Next(store) =>
      var m2, k2 := FinalRuns(code, Final(f.body), BeforeFinal(f, next, outer), k.frame, store, n);
      RunsOn(code, Start(args), m1, k, m2, k2);
      m := m1 + m2;
  }

  /** If the generated code stops at all, the source function ends. */
  lemma FunctionStops(code: Code, f: Function, args: seq<Int32>, next: nat, outer: seq<Scope>, m: nat) returns (n: nat)
    requires Supported(f) && |args| == |f.params| && Contains(code, f, next, outer)
    requires !Run(code, Start(args), m).Running?
    ensures ExecFunction(f, args, n).Some?
  {
    hide BeforeFinal, Represents, Extends, GenStmt, BlockOk, ExecBlock, FinalOk, ExecFinal;
    n := 0;
    match ExecBlock(Front(f.body), BindParams(f.params, args))
    case Returned(_) =>
    case Next(store) =>
      var m1, k := FrontRuns(code, f, args, next, outer);
      StillRunning(code, Start(args), m1, k, m);
      n := FinalStops(code, Final(f.body), BeforeFinal(f, next, outer), k.frame, store, m - m1);
  }

  /** A machine end agrees with at most one result. */
  lemma AgreesWithOne(f: Function, next: nat, outer: seq<Scope>, k: Config, r1: Result, r2: Result)
    requires f.body != [] && Agrees(f, next, outer, k, r1) && Agrees(f, next, outer, k, r2)
    ensures r1 == r2
  {
    match r1
    case ReturnValue(v) => ToBitsInjective(v, r2.value);
    case ReturnVoid(s) =>
      var c := BeforeFinal(f, next, outer);
      forall x | x in s
        ensures s[x] == r2.store[x]
      {
        assert Held(c.scopes, c.next, k.last, s, x) && Held(c.scopes, c.next, k.last, r2.store, x);
        ToBitsInjective(s[x], r2.store[x]);
      }
      assert s == r2.store;
  }

  /** Compiler correctness, for any code that contains the code of the function. */
  lemma ContainedCorrect(code: Code, f: Function, args: seq<Int32>, next: nat, outer: seq<Scope>, r: Result)
    requires Supported(f) && |args| == |f.params| && Contains(code, f, next, outer)
    ensures (exists n: nat :: ExecFunction(f, args, n) == Some(r)) <==>
            (exists m: nat :: Agrees(f, next, outer, Run(code, Start(args), m), r))
  {
    hide Agrees, BodyOk, Contains;
    assert f.body != [] by { SupportedNonempty(f); }
    if exists n: nat :: ExecFunction(f, args, n) == Some(r) {
      var n: nat :| ExecFunction(f, args, n) == Some(r);
      var m := FunctionRuns(code, f, args, next, outer, n);
    }
    if exists m: nat :: Agrees(f, next, outer, Run(code, Start(args), m), r) {
      var m: nat :| Agrees(f, next, outer, Run(code, Start(args), m), r);
      AgreesIsDone(f, next, outer, Run(code, Start(args), m), r);
      var n := FunctionStops(code, f, args, next, outer, m);
      var m' := FunctionRuns(code, f, args, next, outer, n);
      AgreesIsDone(f, next, outer, Run(code, Start(args), m'), ExecFunction(f, args, n).value);
      EndIsUnique(code, Start(args), m, m');
      AgreesWithOne(f, next, outer, Run(code, Start(args), m), r, ExecFunction(f, args, n).value);
    }
  }

  lemma SupportedNonempty(f: Function)
    requires Supported(f)
    ensures f.body != []
  {
  }

  lemma AgreesIsDone(f: Function, next: nat, outer: seq<Scope>, k: Config, r: Result)
    requires f.body != [] && Agrees(f, next, outer, k, r)
    ensures k.Done?
  {
  }

  /**
    Compiler correctness. For every supported function and all arguments, the
    source has result r exactly when the generated blocks, run from the entry
    block, come to an end that agrees with r.
  */
  lemma CompilerCorrect(f: Function, args: seq<Int32>, next: nat, outer: seq<Scope>, r: Result)
    requires Supported(f) && |args| == |f.params|
    ensures (exists n: nat :: ExecFunction(f, args, n) == Some(r)) <==>
            (exists m: nat :: Agrees(f, next, outer, Run(CodeOf(f, next, outer), Start(args), m), r))
  {
    ContainedCorrect(CodeOf(f, next, outer), f, args, next, outer, r);
  }

  /**
    Generated code never goes wrong: it does not run off the end of a block, use an
    undefined temporary or an uninitialised cell, or jump to a block that is missing.
  */
  lemma NeverStuck(f: Function, args: seq<Int32>, next: nat, outer: seq<Scope>, m: nat)
    requires Supported(f) && |args| == |f.params|
    ensures Run(CodeOf(f, next, outer), Start(args), m) != Stuck
  {
    var code := CodeOf(f, next, outer);
    assert Contains(code, f, next, outer);
    hide Agrees, CodeOf, BodyOk, Contains;
    if Run(code, Start(args), m) == Stuck {
      SupportedNonempty(f);
      var n := FunctionStops(code, f, args, next, outer, m);
      var m' := FunctionRuns(code, f, args, next, outer, n);
      AgreesIsDone(f, next, outer, Run(code, Start(args), m'), ExecFunction(f, args, n).value);
      EndIsUnique(code, Start(args), m, m');
      assert false;
    }
  }

  // ----- statements behind the last one -----

  lemma {:induction false} GenAppended(a: seq<Stmt>, b: seq<Stmt>, c: Builder)
    ensures GenBlock(a + b, c).0 == GenBlock(b, GenBlock(a, c).0).0
    decreases |a|
  {
    if a == [] {
      assert a + b == b;
    } else {
      assert (a + b)[0] == a[0] && (a + b)[1..] == a[1..] + b;
      GenAppended(a[1..], b, GenStmt(a[0], c).0);
      if |a| == 1 {
        assert a[1..] + b == b;
      }
    }
  }

  /**
    Statements behind the final return or loop are never reached, whatever they are:
    the code of the longer body computes what the body without them means. For a loop
    this is where the generator leaves its language, because it ends the function.
  */
  lemma NothingAfterFinal(f: Function, extra: seq<Stmt>, args: seq<Int32>, next: nat, outer: seq<Scope>, r: Result)
    requires Supported(f) && |args| == |f.params|
    ensures (exists n: nat :: ExecFunction(f, args, n) == Some(r)) <==>
            (exists m: nat :: Agrees(f, next, outer,
                                     Run(CodeOf(f.(body := f.body + extra), next, outer), Start(args), m), r))
  {
    var c := GenParams(f.params, 0, EntryCtx(next, outer));
    var d := GenBlock(f.body, c).0;
    GenAppended(f.body, extra, c);
    BlockGrew(extra, d);
    var code := CodeOf(f.(body := f.body + extra), next, outer);
    assert code == GenBlock(extra, d).0.blocks && GenFunction(f, next, outer) == d;
    hide CodeOf, GenBlock, GenParams, BodyOk;
    ContainedCorrect(code, f, args, next, outer, r);
  }
}
