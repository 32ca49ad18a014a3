/**
  The abstract syntax of ThLang (include/thlang/node.h): the nodes that the code
  generator has working code for. Operators are named by their token.
*/
module ThlangAst {
  import opened Wrappers

  datatype UnaryOp = Neg | Pos | Not

  // AndOp stands for "&" and its Chinese spelling, OrOp for "||" and its Chinese spelling.
  // OtherOp is every operator text without a case in BinOpAst::codegen, such as "%" and "&&".
  datatype BinaryOp =
    | AddOp | SubOp | MulOp | DivOp
    | AndOp | OrOp | XorOp | ShlOp | ShrOp
    | LtOp | LeOp | GeOp | GtOp | EqOp | NeOp
    | OtherOp(text: string)

  datatype Expr =
    | IntLit(value: int)
    | Name(name: string)
    | UnOp(uop: UnaryOp, operand: Expr)
    | BinOp(op: BinaryOp, left: Expr, right: Expr)
    | Assign(target: string, rhs: Expr)

  datatype Stmt =
    | ExprStmt(expr: Expr)
    | VarStmt(name: string, init: Option<Expr>)
    | IfStmt(cond: Expr, thn: seq<Stmt>, els: Else)
    | ForStmt(start: Option<Expr>, cond: Expr, increment: Option<Expr>, body: seq<Stmt>)
    | WhileStmt(cond: Expr, body: seq<Stmt>)
    | ReturnStmt(value: Option<Expr>)

  // A missing else statement is a null pointer in the source, not an empty block.
  datatype Else = NoElse | Else(stmts: seq<Stmt>)

  datatype Function = Function(params: seq<string>, body: seq<Stmt>)

  /** Names a statement binds in the scope it is generated in; loop bodies have a scope of their own. */
  function Declared(s: Stmt): set<string>
    decreases s, 0
  {
    match s
    case VarStmt(x, _) => {x}
    case IfStmt(_, thn, els) =>
      DeclaredIn(thn) + (match els case NoElse => {} case Else(ss) => DeclaredIn(ss))
    case _ => {}
  }

  function DeclaredIn(ss: seq<Stmt>): set<string>
    decreases ss, 1
  {
    if ss == [] then {} else Declared(ss[0]) + DeclaredIn(ss[1..])
  }

  /** The else branch as a statement list; a missing else does nothing. */
  function ElseOf(els: Else): seq<Stmt> {
    match els case NoElse => [] case Else(ss) => ss
  }
}
