/**
  What a ThLang program means, independently of the code generator: expressions
  and statements are evaluated directly over a store of signed 32-bit variables.
  Only the fragment for which the generator has working code is given a meaning;
  the predicates ending in Ok say which programs those are.
*/
module ThlangSemantics {
  import opened Wrappers
  import opened TwosComplement
  import opened ThlangAst

  datatype Ty = IntTy | BoolTy
  datatype Value = Num(n: int) | Truth(b: bool)

  type Int32 = n: int | IsSigned(n) witness 0
  type Store = map<string, Int32>

  /** A division or a shift by a literal that leaves none of its cases undefined. */
  predicate AlwaysDefined(op: BinaryOp, r: Expr) {
    r.IntLit? && if op == DivOp then Wrap(r.value) != 0 && Wrap(r.value) != -1 else 0 <= Wrap(r.value) < 32
  }

  /** The type of an expression over the given variables, if it has one. */
  function TypeOf(e: Expr, names: set<string>): Option<Ty> {
    match e
    case IntLit(_) => Some(IntTy)
    case Name(x) => if x in names then Some(IntTy) else None
    case UnOp(op, e1) =>
      var t := TypeOf(e1, names);
      (match op
       case Neg => if t == Some(IntTy) then t else None
       case Pos => t
       case Not => None)
    case BinOp(op, l, r) =>
      var t := TypeOf(l, names);
      if t.None? || t != TypeOf(r, names) then None
      else (
        match op
        case AddOp | SubOp | MulOp => if t.value == IntTy then t else None
        case DivOp | ShlOp | ShrOp => if t.value == IntTy && AlwaysDefined(op, r) then t else None
        case AndOp | OrOp | XorOp => t
        case LtOp | LeOp | GeOp | GtOp => if t.value == IntTy then Some(BoolTy) else None
        case EqOp | NeOp => Some(BoolTy)
        case OtherOp(_) => None)
    case Assign(_, _) => None
  }

  /** `<` compares the operands as unsigned numbers; every other order is signed. */
  predicate UnsignedLess(a: Int32, b: Int32) {
    ToBits(a) < ToBits(b)
  }

  function BitGate(g: Gate, a: Int32, b: Int32): (r: Int32) {
    Pow2Of32();
    Wrap(Bitwise(g, ToBits(a), ToBits(b), 32))
  }

  function BoolGate(g: Gate, a: bool, b: bool): bool {
    match g
    case AndGate => a && b
    case OrGate => a || b
    case XorGate => a != b
  }

  function GateOf(op: BinaryOp): Gate {
    match op
    case AndOp => AndGate
    case OrOp => OrGate
    case _ => XorGate
  }

  /** Evaluation is defined on typed expressions and gives a value of that type. */
  function Eval(e: Expr, s: Store): (v: Value)
    requires TypeOf(e, s.Keys).Some?
    ensures TypeOf(e, s.Keys).value == IntTy ==> v.Num? && IsSigned(v.n)
    ensures TypeOf(e, s.Keys).value == BoolTy ==> v.Truth?
  {
    match e
    case IntLit(k) => Num(Wrap(k))
    case Name(x) => Num(s[x])
    case UnOp(op, e1) =>
      var v := Eval(e1, s);
      if op == Neg then Num(Wrap(-v.n)) else v
    case BinOp(op, l, r) => Apply(op, Eval(l, s), Eval(r, s))
  }

  /** Operand pairs on which an operator has a meaning. */
  predicate Applicable(op: BinaryOp, a: Value, b: Value) {
    match op
    case AddOp | SubOp | MulOp | LtOp | LeOp | GeOp | GtOp => a.Num? && b.Num? && IsSigned(a.n) && IsSigned(b.n)
    case AndOp | OrOp | XorOp | EqOp | NeOp =>
      (a.Num? && b.Num? && IsSigned(a.n) && IsSigned(b.n)) || (a.Truth? && b.Truth?)
    case DivOp => a.Num? && b.Num? && IsSigned(a.n) && IsSigned(b.n) && Divides(a.n, b.n)
    case ShlOp | ShrOp => a.Num? && b.Num? && IsSigned(a.n) && 0 <= b.n < 32
    case OtherOp(_) => false
  }

  function Apply(op: BinaryOp, a: Value, b: Value): Value
    requires Applicable(op, a, b)
  {
    match op
    case AddOp => Num(Wrap(a.n + b.n))
    case SubOp => Num(Wrap(a.n - b.n))
    case MulOp => Num(Wrap(a.n * b.n))
    case DivOp => Num(DividedBy(a.n, b.n))
    case ShlOp => Num(Wrap(a.n * Pow2(b.n)))
    case ShrOp => Num(ShiftedRight(a.n, b.n))
    case AndOp | OrOp | XorOp =>
      if a.Num? then Num(BitGate(GateOf(op), a.n, b.n)) else Truth(BoolGate(GateOf(op), a.b, b.b))
    case LtOp => Truth(UnsignedLess(a.n, b.n))
    case LeOp => Truth(a.n <= b.n)
    case GeOp => Truth(a.n >= b.n)
    case GtOp => Truth(a.n > b.n)
    case EqOp => Truth(a == b)
    case NeOp => Truth(a != b)
  }

  /** How an if reads its condition: any nonzero number is true. */
  function IfTruth(v: Value): bool {
    match v case Num(n) => n != 0 case Truth(b) => b
  }

  /** How a loop reads its condition: a number is cut down to its lowest bit. */
  function LoopTruth(v: Value): bool {
    match v case Num(n) => n % 2 != 0 case Truth(b) => b
  }

  // ----- the supported statements -----

  /** The variables of a block after a statement of it. */
  function After(s: Stmt, names: set<string>): set<string> {
    if s.VarStmt? then names + {s.name} else names
  }

  function AfterAll(ss: seq<Stmt>, names: set<string>): set<string> {
    if ss == [] then names else AfterAll(ss[1..], After(ss[0], names))
  }

  predicate EndsInReturn(ss: seq<Stmt>) { ss != [] && ss[|ss| - 1].ReturnStmt? }

  predicate EndsInIf(ss: seq<Stmt>) { ss != [] && ss[|ss| - 1].IfStmt? }

  /** The last statement of the block is one whose code is a value. */
  predicate EndsInValue(ss: seq<Stmt>) { ss != [] && !EndsInIf(ss) }

  /**
    The branches of an if that IfStmtAst::codegen completes. An if nested last
    in a branch has no value and is taken for a failure, which is harmless only
    in the else branch and only when nothing else reaches the block behind the if.
  */
  predicate BranchesOk(thn: seq<Stmt>, els: Else) {
    && EndsInValue(thn)
    && (els.Else? ==> EndsInValue(els.stmts) || (EndsInReturn(thn) && EndsInIf(els.stmts)))
  }

  predicate AssignOk(x: string, e: Expr, names: set<string>) {
    x in names && TypeOf(e, names) == Some(IntTy)
  }

  predicate ExprStmtOk(e: Expr, names: set<string>) {
    if e.Assign? then AssignOk(e.target, e.rhs, names) else TypeOf(e, names).Some?
  }

  /** Statements without loops, over the given variables. */
  predicate StmtOk(s: Stmt, names: set<string>)
    decreases s, 0
  {
    match s
    case ExprStmt(e) => ExprStmtOk(e, names)
    case VarStmt(x, init) => init.Some? && TypeOf(init.value, names - {x}) == Some(IntTy)
    case IfStmt(c, thn, els) =>
      && TypeOf(c, names).Some?
      && BlockOk(thn, names)
      && (match els case NoElse => true case Else(ss) => BlockOk(ss, names))
      && Declared(s) !! names
      && BranchesOk(thn, els)
    case ReturnStmt(v) => v.Some? && TypeOf(v.value, names) == Some(IntTy)
    case _ => false
  }

  /** A block of such statements, with a return only at its end. */
  predicate BlockOk(ss: seq<Stmt>, names: set<string>)
    decreases ss, 1
  {
    ss == [] ||
    (&& StmtOk(ss[0], names)
     && (ss[0].ReturnStmt? ==> |ss| == 1)
     && BlockOk(ss[1..], After(ss[0], names)))
  }

  predicate NoReturn(s: Stmt)
    decreases s, 0
  {
    match s
    case IfStmt(_, thn, els) => NoReturns(thn) && (match els case NoElse => true case Else(ss) => NoReturns(ss))
    case ReturnStmt(_) => false
    case _ => true
  }

  predicate NoReturns(ss: seq<Stmt>)
    decreases ss, 1
  {
    ss == [] || (NoReturn(ss[0]) && NoReturns(ss[1..]))
  }

  // ----- execution -----

  datatype Outcome = Next(store: Store) | Returned(result: Int32)

  /** The store with the variables of a finished inner block forgotten. */
  function Forget(inner: Store, names: set<string>): (s: Store)
    requires names <= inner.Keys
    ensures s.Keys == names
  {
    map x | x in names :: inner[x]
  }

  lemma AfterAllKeeps(ss: seq<Stmt>, names: set<string>)
    ensures names <= AfterAll(ss, names)
  {
  }

  function Exec(s: Stmt, store: Store): (o: Outcome)
    requires StmtOk(s, store.Keys)
    ensures o.Next? ==> o.store.Keys == After(s, store.Keys)
    ensures NoReturn(s) ==> o.Next?
    ensures s.ReturnStmt? ==> o.Returned?
    decreases s, 0
  {
    match s
    case ExprStmt(e) =>
      if e.Assign? then Next(store[e.target := Eval(e.rhs, store).n]) else Next(store)
    case VarStmt(x, init) =>
      assert (store - {x}).Keys == store.Keys - {x};
      Next(store[x := Eval(init.value, store - {x}).n])
    case IfStmt(c, thn, els) =>
      var branch := if IfTruth(Eval(c, store)) then thn else
        (match els case NoElse => [] case Else(ss) => ss);
      (match (if IfTruth(Eval(c, store)) then ExecBlock(thn, store)
              else match els case NoElse => Next(store) case Else(ss) => ExecBlock(ss, store))
       case Next(inner) =>
         AfterAllKeeps(branch, store.Keys);
         Next(Forget(inner, store.Keys))
       case Returned(v) => Returned(v))
    case ReturnStmt(v) => Returned(Eval(v.value, store).n)
  }

  function ExecBlock(ss: seq<Stmt>, store: Store): (o: Outcome)
    requires BlockOk(ss, store.Keys)
    ensures o.Next? ==> o.store.Keys == AfterAll(ss, store.Keys)
    ensures NoReturns(ss) ==> o.Next?
    ensures EndsInReturn(ss) ==> o.Returned?
    decreases ss, 1
  {
    if ss == [] then Next(store)
    else
      match Exec(ss[0], store)
      case Next(s1) => ExecBlock(ss[1..], s1)
      case Returned(v) => Returned(v)
  }

  // ----- loops -----

  predicate LoopBodyOk(body: seq<Stmt>, names: set<string>) {
    BlockOk(body, names) && NoReturns(body) && DeclaredIn(body) !! names
  }

  /** One run through a loop body, in a scope of its own. */
  function ExecBody(body: seq<Stmt>, store: Store): (s: Store)
    requires LoopBodyOk(body, store.Keys)
    ensures s.Keys == store.Keys
  {
    AfterAllKeeps(body, store.Keys);
    Forget(ExecBlock(body, store).store, store.Keys)
  }

  predicate Holds(cond: Expr, store: Store)
    requires TypeOf(cond, store.Keys).Some?
  {
    LoopTruth(Eval(cond, store))
  }

  predicate WhileOk(cond: Expr, body: seq<Stmt>, names: set<string>) {
    TypeOf(cond, names).Some? && LoopBodyOk(body, names)
  }

  predicate StraightLine(ss: seq<Stmt>) {
    forall i :: 0 <= i < |ss| ==> ss[i].ExprStmt? || ss[i].VarStmt?
  }

  predicate PartOk(e: Option<Expr>, names: set<string>) {
    e.Some? ==> ExprStmtOk(e.value, names)
  }

  predicate ForOk(start: Option<Expr>, cond: Expr, increment: Option<Expr>, body: seq<Stmt>, names: set<string>) {
    && PartOk(start, names)
    && WhileOk(cond, body, names)
    && PartOk(increment, names)
    && StraightLine(body)
  }

  function ExecPart(e: Option<Expr>, store: Store): (s: Store)
    requires PartOk(e, store.Keys)
    ensures s.Keys == store.Keys
  {
    if e.None? then store else Exec(ExprStmt(e.value), store).store
  }

  /** The increment of a for; a while has none. */
  function IncrementOf(s: Stmt): Option<Expr> {
    if s.ForStmt? then s.increment else None
  }

  /** A loop after the first part of a for has been done. */
  predicate LoopOk(s: Stmt, names: set<string>) {
    && (s.WhileStmt? || s.ForStmt?)
    && WhileOk(s.cond, s.body, names)
    && PartOk(IncrementOf(s), names)
  }

  /** One round: the body, then the increment. */
  function ExecRound(s: Stmt, store: Store): (r: Store)
    requires LoopOk(s, store.Keys)
    ensures r.Keys == store.Keys
  {
    ExecPart(IncrementOf(s), ExecBody(s.body, store))
  }

  /** The store in which the loop ends, if it ends within n rounds. */
  function ExecLoop(s: Stmt, store: Store, n: nat): (r: Option<Store>)
    requires LoopOk(s, store.Keys)
    ensures r.Some? ==> r.value.Keys == store.Keys
    decreases n
  {
    if !Holds(s.cond, store) then Some(store)
    else if n == 0 then None
    else ExecLoop(s, ExecRound(s, store), n - 1)
  }

  // ----- functions -----

  datatype Result = ReturnValue(value: Int32) | ReturnVoid(store: Store)

  function ParamNames(params: seq<string>): set<string> {
    set x | x in params
  }

  /** The body without its last statement. */
  function Front(ss: seq<Stmt>): seq<Stmt>
    requires ss != []
  {
    ss[..|ss| - 1]
  }

  function Final(ss: seq<Stmt>): Stmt
    requires ss != []
  {
    ss[|ss| - 1]
  }

  /** Ways in which a function body may end. */
  predicate FinalOk(s: Stmt, names: set<string>) {
    match s
    case ReturnStmt(v) => v.Some? ==> TypeOf(v.value, names) == Some(IntTy)
    case WhileStmt(c, body) => WhileOk(c, body, names)
    case ForStmt(start, c, inc, body) => ForOk(start, c, inc, body, names)
    case _ => false
  }

  predicate ReturnsValue(s: Stmt) { s.ReturnStmt? && s.value.Some? }

  /**
    Supported bodies: statements, then a return or a loop. A body that ends
    without a value is that of a void function, so it returns nothing earlier either.
  */
  predicate BodyOk(body: seq<Stmt>, names: set<string>) {
    && body != []
    && BlockOk(Front(body), names)
    && !EndsInReturn(Front(body))
    && FinalOk(Final(body), AfterAll(Front(body), names))
    && (!ReturnsValue(Final(body)) ==> NoReturns(Front(body)))
  }

  /** Parameters are bound from left to right. */
  function BindParams(params: seq<string>, args: seq<Int32>): (s: Store)
    requires |params| == |args|
    ensures s.Keys == ParamNames(params)
  {
    if params == [] then map[]
    else
      var k := |params| - 1;
      assert params == params[..k] + [params[k]];
      BindParams(params[..k], args[..k])[params[k] := args[k]]
  }

  function LoopResult(r: Option<Store>): Option<Result> {
    match r case Some(s) => Some(ReturnVoid(s)) case None => None
  }

  function ExecFinal(s: Stmt, store: Store, n: nat): Option<Result>
    requires FinalOk(s, store.Keys)
  {
    match s
    case ReturnStmt(v) =>
      Some(if v.Some? then ReturnValue(Eval(v.value, store).n) else ReturnVoid(store))
    case WhileStmt(_, _) => LoopResult(ExecLoop(s, store, n))
    case ForStmt(start, _, _, _) => LoopResult(ExecLoop(s, ExecPart(start, store), n))
  }

  /** The result of a call, if it ends with at most n rounds of the final loop. */
  function ExecFunction(f: Function, args: seq<Int32>, n: nat): Option<Result>
    requires |args| == |f.params| && BodyOk(f.body, ParamNames(f.params))
  {
    match ExecBlock(Front(f.body), BindParams(f.params, args))
    case Returned(v) => Some(ReturnValue(v))
    case Next(store) => ExecFinal(Final(f.body), store, n)
  }
}
