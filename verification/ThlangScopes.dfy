/**
  Scope discipline of the code generator (the scope stack of
  include/thlang/codegen.h), and which statements it completes.
*/
module ThlangScopes {
  import opened Wrappers
  import opened ThlangAst
  import opened ThlangIr
  import opened ThlangCodeGen

  /** The two stacks differ at most at the given names of the top scope. */
  ghost predicate SameOutside(a: seq<Scope>, b: seq<Scope>, names: set<string>) {
    && |a| == |b| > 0
    && a[..|a| - 1] == b[..|b| - 1]
    && forall x :: x !in names ==>
         (x in a[|a| - 1] <==> x in b[|b| - 1]) && (x in a[|a| - 1] ==> a[|a| - 1][x] == b[|b| - 1][x])
  }

  lemma SameOutsideTransitive(a: seq<Scope>, b: seq<Scope>, c: seq<Scope>, m: set<string>, n: set<string>)
    requires SameOutside(a, b, m) && SameOutside(b, c, n)
    ensures SameOutside(a, c, m + n)
  {
  }

  lemma SameLookup(a: seq<Scope>, b: seq<Scope>, names: set<string>, x: string)
    requires SameOutside(a, b, names) && x !in names
    ensures GetValue(a, x) == GetValue(b, x)
  {
  }

  /** An empty scope on top hides nothing. */
  lemma EmptyScopeLookup(a: seq<Scope>, x: string)
    ensures GetValue(a + [map[]], x) == GetValue(a, x)
  {
    assert (a + [map[]])[..|a|] == a;
  }

  /**
    Generating a statement leaves the depth of the stack and every scope below the
    top as they were, and the top changes only at names the statement declares.
  */
  lemma {:induction false} StmtScopes(s: Stmt, c: Builder)
    ensures SameOutside(c.scopes, GenStmt(s, c).0.scopes, Declared(s))
    decreases s, 2
  {
    match s
    case VarStmt(x, init) => VarScopes(x, init, c);
    case IfStmt(_, _, _) => IfScopes(s, c);
    case ForStmt(_, _, _, _) => LoopScopes(s, c);
    case WhileStmt(_, _) => LoopScopes(s, c);
    case _ =>
  }

  lemma VarScopes(x: string, init: Option<Expr>, c: Builder)
    ensures GenVar(x, init, c).0.scopes == SetValue(c, x, Temp(c.next, Pointer)).scopes
    ensures SameOutside(c.scopes, GenVar(x, init, c).0.scopes, {x})
  {
  }

  lemma {:induction false} IfScopes(s: Stmt, c: Builder)
    requires s.IfStmt?
    ensures SameOutside(c.scopes, GenIf(s, c).0.scopes, Declared(s))
    decreases s, 0
  {
    hide SameOutside, GenExpr, IfHead, IfMiddle, GenBlock, GenStmt;
    var n := |c.blocks|;
    var (c1, o) := GenExpr(s.cond, c);
    SameOutsideSelf(c.scopes, {});
    if o.Some? {
      BlockScopes(s.thn, IfHead(c1, o.value));
      var (c2, v) := GenBlock(s.thn, IfHead(c1, o.value));
      if v.Some? && s.els.Else? {
        BlockScopes(s.els.stmts, IfMiddle(c2, n));
        SameOutsideTransitive(c.scopes, c2.scopes, GenBlock(s.els.stmts, IfMiddle(c2, n)).0.scopes,
                              DeclaredIn(s.thn), DeclaredIn(s.els.stmts));
      }
    }
    SameOutsideMore(c.scopes, GenIf(s, c).0.scopes, s);
  }

  lemma SameOutsideSelf(a: seq<Scope>, names: set<string>)
    requires |a| > 0
    ensures SameOutside(a, a, names)
  {
  }

  lemma SameOutsideMore(a: seq<Scope>, b: seq<Scope>, s: Stmt)
    requires s.IfStmt?
    requires || SameOutside(a, b, {}) || SameOutside(a, b, DeclaredIn(s.thn))
             || (s.els.Else? && SameOutside(a, b, DeclaredIn(s.thn) + DeclaredIn(s.els.stmts)))
    ensures SameOutside(a, b, Declared(s))
  {
    assert DeclaredIn(s.thn) <= Declared(s);
    if s.els.Else? {
      assert DeclaredIn(s.thn) + DeclaredIn(s.els.stmts) <= Declared(s);
    }
  }

  /** A loop leaves the whole stack as it found it. */
  lemma {:induction false} LoopScopes(s: Stmt, c: Builder)
    requires s.WhileStmt? || s.ForStmt?
    ensures GenStmt(s, c).0.scopes == c.scopes
    ensures SameOutside(c.scopes, GenStmt(s, c).0.scopes, {})
    decreases s, 1
  {
    if s.WhileStmt? {
      WhileScopes(s, c);
    } else {
      ForScopes(s, c);
    }
  }

  lemma {:induction false} WhileScopes(s: Stmt, c: Builder)
    requires s.WhileStmt?
    ensures GenWhile(s, c).0.scopes == c.scopes
    decreases s, 0
  {
    hide SameOutside, GenExpr, WhileHead, LoopEntry, WhileEnd, GenBlock, GenStmt;
    var (c1, o) := GenExpr(s.cond, WhileHead(c));
    if o.Some? {
      var c2 := LoopEntry(c1, o.value, |c.blocks|, |c.blocks| + 1);
      BlockScopes(s.body, c2);
      PoppedScopes(c.scopes, GenBlock(s.body, c2).0.scopes, DeclaredIn(s.body));
    }
  }

  lemma {:induction false} ForScopes(s: Stmt, c: Builder)
    requires s.ForStmt?
    ensures GenFor(s, c).0.scopes == c.scopes
    decreases s, 0
  {
    hide SameOutside, GenExpr, ForInit, LoopEntry, ForEnd, GenBlock, GenStmt;
    var (c1, o) := GenExpr(s.cond, ForInit(s.start, c));
    if o.Some? {
      var c2 := LoopEntry(c1, o.value, |c.blocks| + 2, |c.blocks| + 4);
      BlockScopes(s.body, c2);
      PoppedScopes(c.scopes, GenBlock(s.body, c2).0.scopes, DeclaredIn(s.body));
    }
  }

  lemma PoppedScopes(a: seq<Scope>, b: seq<Scope>, names: set<string>)
    requires SameOutside(a + [map[]], b, names)
    ensures b[..|b| - 1] == a
  {
    assert (a + [map[]])[..|a|] == a;
  }

  lemma {:induction false} BlockScopes(ss: seq<Stmt>, c: Builder)
    ensures SameOutside(c.scopes, GenBlock(ss, c).0.scopes, DeclaredIn(ss))
    decreases ss, 3
  {
    if ss != [] {
      StmtScopes(ss[0], c);
      var d := GenStmt(ss[0], c).0;
      if |ss| > 1 {
        BlockScopes(ss[1..], d);
        SameOutsideTransitive(c.scopes, d.scopes, GenBlock(ss[1..], d).0.scopes, Declared(ss[0]), DeclaredIn(ss[1..]));
      } else {
        assert DeclaredIn(ss[1..]) == {};
      }
    }
  }

  lemma {:induction false} ParamsScopes(params: seq<string>, i: nat, c: Builder)
    requires i <= |params|
    ensures |GenParams(params, i, c).scopes| == |c.scopes|
    ensures GenParams(params, i, c).scopes[..|c.scopes| - 1] == c.scopes[..|c.scopes| - 1]
    decreases |params| - i
  {
    if i < |params| {
      var c1 := EmitTemp(c, Alloca(c.next));
      var c2 := Emit(c1, Store(Arg(i), Temp(c.next, Pointer)));
      ParamsScopes(params, i + 1, SetValue(c2, params[i], Temp(c.next, Pointer)));
    }
  }

  /** A function, whatever is in it, leaves one scope more on the stack, and the scopes below as they were. */
  lemma FunctionScopes(f: Function, next: nat, scopes: seq<Scope>)
    ensures |GenFunction(f, next, scopes).scopes| == |scopes| + 1
    ensures GenFunction(f, next, scopes).scopes[..|scopes|] == scopes
  {
    hide GenBlock, GenParams;
    var c := EntryCtx(next, scopes);
    assert c.scopes[..|scopes|] == scopes;
    ParamsScopes(f.params, 0, c);
    BlockScopes(f.body, GenParams(f.params, 0, c));
  }
}
