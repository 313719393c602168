/** Replacement of variables, inlining of calls, and why an inlined call does what the call does. */
module Inline {
  import opened Wrappers
  import opened IR

  // ---------- Replacing variables ----------

  function Renamed(v: Var, init: Var, final: Var): (w: Var)
  {
    if v == init then final else v
  }

  function ReplaceVarIn(e: Expr, init: Var, final: Var): (r: Expr)
  {
    match e
    case Literal(_) => e
    case VarExpr(v) => VarExpr(Renamed(v, init, final))
    case Binary(op, a, b) => Binary(op, ReplaceVarIn(a, init, final), ReplaceVarIn(b, init, final))
  }

  function ReplaceVarInAll(es: seq<Expr>, init: Var, final: Var): (rs: seq<Expr>)
  {
    if es == [] then [] else [ReplaceVarIn(es[0], init, final)] + ReplaceVarInAll(es[1..], init, final)
  }

  function RenamedAll(vs: seq<Var>, init: Var, final: Var): (ws: seq<Var>)
    ensures |ws| == |vs| && forall i :: 0 <= i < |vs| ==> ws[i] == Renamed(vs[i], init, final)
  {
    if vs == [] then [] else [Renamed(vs[0], init, final)] + RenamedAll(vs[1..], init, final)
  }

  /** replaceVar; callees keep their own variables. */
  function ReplaceVar(s: Stmt, init: Var, final: Var): (r: Stmt)
  {
    match s
    case Pass => s
    case VarDecl(v) => VarDecl(Renamed(v, init, final))
    case AssignStmt(v, e, add) => AssignStmt(Renamed(v, init, final), ReplaceVarIn(e, init, final), add)
    case Block(first, rest) => Block(ReplaceVar(first, init, final), ReplaceVar(rest, init, final))
    case Scope(scoped) => Scope(ReplaceVar(scoped, init, final))
    case IfThenElse(c, t, e) =>
      IfThenElse(ReplaceVarIn(c, init, final), ReplaceVar(t, init, final), ReplaceVar(e, init, final))
    case ForRange(v, start, end, body) =>
      ForRange(Renamed(v, init, final), ReplaceVarIn(start, init, final), ReplaceVarIn(end, init, final),
        ReplaceVar(body, init, final))
    case While(c, body) => While(ReplaceVarIn(c, init, final), ReplaceVar(body, init, final))
    case Print(e) => Print(ReplaceVarIn(e, init, final))
    case CallStmt(results, callee, actuals) =>
      CallStmt(RenamedAll(results, init, final), callee, ReplaceVarInAll(actuals, init, final))
  }

  function ReplaceExprIn(e: Expr, init: Var, final: Expr): (r: Expr)
  {
    match e
    case Literal(_) => e
    case VarExpr(v) => if v == init then final else e
    case Binary(op, a, b) => Binary(op, ReplaceExprIn(a, init, final), ReplaceExprIn(b, init, final))
  }

  function ReplaceExprInAll(es: seq<Expr>, init: Var, final: Expr): (rs: seq<Expr>)
  {
    if es == [] then [] else [ReplaceExprIn(es[0], init, final)] + ReplaceExprInAll(es[1..], init, final)
  }

  /** What is written instead of init: only a variable can be. */
  function Target(v: Var, init: Var, final: Expr): (w: Var)
  {
    if v == init && final.VarExpr? then final.v else v
  }

  function TargetAll(vs: seq<Var>, init: Var, final: Expr): (ws: seq<Var>)
    ensures |ws| == |vs| && forall i :: 0 <= i < |vs| ==> ws[i] == Target(vs[i], init, final)
  {
    if vs == [] then [] else [Target(vs[0], init, final)] + TargetAll(vs[1..], init, final)
  }

  /** replaceVarByExpr; loop variables are not replaced. */
  function ReplaceVarByExpr(s: Stmt, init: Var, final: Expr): (r: Stmt)
  {
    match s
    case Pass => s
    case VarDecl(_) => s
    case AssignStmt(v, e, add) => AssignStmt(Target(v, init, final), ReplaceExprIn(e, init, final), add)
    case Block(first, rest) => Block(ReplaceVarByExpr(first, init, final), ReplaceVarByExpr(rest, init, final))
    case Scope(scoped) => Scope(ReplaceVarByExpr(scoped, init, final))
    case IfThenElse(c, t, e) =>
      IfThenElse(ReplaceExprIn(c, init, final), ReplaceVarByExpr(t, init, final), ReplaceVarByExpr(e, init, final))
    case ForRange(v, start, end, body) =>
      ForRange(v, ReplaceExprIn(start, init, final), ReplaceExprIn(end, init, final),
        ReplaceVarByExpr(body, init, final))
    case While(c, body) => While(ReplaceExprIn(c, init, final), ReplaceVarByExpr(body, init, final))
    case Print(e) => Print(ReplaceExprIn(e, init, final))
    case CallStmt(results, callee, actuals) =>
      CallStmt(TargetAll(results, init, final), callee, ReplaceExprInAll(actuals, init, final))
  }

  // ---------- Variables of statements ----------

  function SetOf(vs: seq<Var>): (s: set<Var>)
    ensures forall v :: v in s <==> v in vs
  {
    set v | v in vs
  }

  function Writes(s: Stmt): (vs: set<Var>)
  {
    match s
    case AssignStmt(v, _, _) => {v}
    case Block(first, rest) => Writes(first) + Writes(rest)
    case Scope(scoped) => Writes(scoped)
    case IfThenElse(_, t, e) => Writes(t) + Writes(e)
    case ForRange(v, _, _, body) => {v} + Writes(body)
    case While(_, body) => Writes(body)
    case CallStmt(results, _, _) => SetOf(results)
    case _ => {}
  }

  /** Every variable that occurs, except those of callees. */
  function Mentions(s: Stmt): (vs: set<Var>)
  {
    match s
    case Pass => {}
    case VarDecl(v) => {v}
    case AssignStmt(v, e, _) => {v} + Reads(e)
    case Block(first, rest) => Mentions(first) + Mentions(rest)
    case Scope(scoped) => Mentions(scoped)
    case IfThenElse(c, t, e) => Reads(c) + Mentions(t) + Mentions(e)
    case ForRange(v, start, end, body) => {v} + Reads(start) + Reads(end) + Mentions(body)
    case While(c, body) => Reads(c) + Mentions(body)
    case Print(e) => Reads(e)
    case CallStmt(results, _, actuals) => SetOf(results) + ReadsAll(actuals)
  }

  /** What is certainly assigned after a statement... */
  ghost function Assigned(s: Stmt, vars: iset<Var>): (r: iset<Var>)
  {
    match s
    case AssignStmt(v, _, _) => vars + iset{v}
    case Block(first, rest) => Assigned(rest, Assigned(first, vars))
    case Scope(scoped) => Assigned(scoped, vars)
    case IfThenElse(_, t, e) => Assigned(t, vars) * Assigned(e, vars)
    case CallStmt(results, callee, _) => if |results| == |callee.results| then vars + iset v | v in results else vars
    case _ => vars
  }

  /** ... and that it reads assigned variables only. */
  ghost predicate Defined(s: Stmt, vars: iset<Var>)
  {
    match s
    case Pass => true
    case VarDecl(_) => true
    case AssignStmt(v, e, add) => Within(Reads(e), vars) && (add ==> v in vars)
    case Block(first, rest) => Defined(first, vars) && Defined(rest, Assigned(first, vars))
    case Scope(scoped) => Defined(scoped, vars)
    case IfThenElse(c, t, e) => Within(Reads(c), vars) && Defined(t, vars) && Defined(e, vars)
    case ForRange(v, start, end, body) =>
      Within(Reads(start), vars) && Within(Reads(end), vars) && Defined(body, vars + iset{v})
    case While(c, body) => Within(Reads(c), vars) && Defined(body, vars)
    case Print(e) => Within(Reads(e), vars)
    case CallStmt(_, _, actuals) => Within(ReadsAll(actuals), vars)
  }

  lemma {:induction false} AssignedGrows(s: Stmt, vars: iset<Var>)
    ensures vars <= Assigned(s, vars)
  {
    match s
    case Block(first, rest) => AssignedGrows(first, vars); AssignedGrows(rest, Assigned(first, vars));
    case Scope(scoped) => AssignedGrows(scoped, vars);
    case IfThenElse(_, t, e) => AssignedGrows(t, vars); AssignedGrows(e, vars);
    case _ =>
  }

  lemma {:induction false} DefinedMore(s: Stmt, vars: iset<Var>, more: iset<Var>)
    requires Defined(s, vars) && vars <= more
    ensures Defined(s, more) && Assigned(s, vars) <= Assigned(s, more)
  {
    match s
    case Block(first, rest) =>
      DefinedMore(first, vars, more); DefinedMore(rest, Assigned(first, vars), Assigned(first, more));
    case Scope(scoped) => DefinedMore(scoped, vars, more);
    case IfThenElse(_, t, e) => DefinedMore(t, vars, more); DefinedMore(e, vars, more);
    case ForRange(v, _, _, body) => DefinedMore(body, vars + iset{v}, more + iset{v});
    case While(_, body) => DefinedMore(body, vars, more);
    case _ =>
  }

  /** Only written variables become assigned. */
  lemma {:induction false} AssignedIsWritten(s: Stmt, vars: iset<Var>, v: Var)
    requires v in Assigned(s, vars)
    ensures v in vars || v in Writes(s)
  {
    match s
    case Block(first, rest) =>
      AssignedIsWritten(rest, Assigned(first, vars), v);
      if v in Assigned(first, vars) { AssignedIsWritten(first, vars, v); }
    case Scope(scoped) => AssignedIsWritten(scoped, vars, v);
    case IfThenElse(_, t, e) => AssignedIsWritten(t, vars, v);
    case _ =>
  }

  lemma {:induction false} WritesAreMentioned(s: Stmt)
    ensures Writes(s) <= Mentions(s)
  {
    match s
    case Block(first, rest) => WritesAreMentioned(first); WritesAreMentioned(rest);
    case Scope(scoped) => WritesAreMentioned(scoped);
    case IfThenElse(_, t, e) => WritesAreMentioned(t); WritesAreMentioned(e);
    case ForRange(_, _, _, body) => WritesAreMentioned(body);
    case While(_, body) => WritesAreMentioned(body);
    case _ =>
  }

  // ---------- What execution depends on and what it changes ----------

  /** A statement that reads assigned variables only does the same from states that agree on them. */
  lemma {:induction false} DependsOnAssigned(s: Stmt, vars: iset<Var>, a: State, b: State, fuel: nat)
    requires Defined(s, vars) && Agree(a.store, b.store, vars) && a.out == b.out
    ensures SameEnd(Exec(s, a, fuel), Exec(s, b, fuel), Assigned(s, vars))
    decreases fuel, s, 0
  {
    match s
    case AssignStmt(_, e, _) => EvalAgrees(e, a.store, b.store, vars);
    case Block(first, rest) =>
      DependsOnAssigned(first, vars, a, b, fuel);
      if Exec(first, a, fuel).Some? {
        DependsOnAssigned(rest, Assigned(first, vars), Exec(first, a, fuel).value, Exec(first, b, fuel).value, fuel);
      }
    case Scope(scoped) => DependsOnAssigned(scoped, vars, a, b, fuel);
    case IfThenElse(c, t, e) =>
      EvalAgrees(c, a.store, b.store, vars);
      DependsOnAssigned(t, vars, a, b, fuel);
      DependsOnAssigned(e, vars, a, b, fuel);
    case ForRange(v, start, end, body) =>
      EvalAgrees(start, a.store, b.store, vars);
      EvalAgrees(end, a.store, b.store, vars);
      RangeDepends(v, Eval(start, a.store), Eval(end, a.store), body, vars, a, b, fuel);
    case While(c, body) =>
      EvalAgrees(c, a.store, b.store, vars);
      if Eval(c, a.store) != 0 && fuel > 0 {
        DependsOnAssigned(body, vars, a, b, fuel);
        AssignedGrows(body, vars);
        if Exec(body, a, fuel).Some? {
          DependsOnAssigned(s, vars, Exec(body, a, fuel).value, Exec(body, b, fuel).value, fuel - 1);
        }
      }
    case Print(e) => EvalAgrees(e, a.store, b.store, vars);
    case CallStmt(results, callee, actuals) => CallDepends(s, vars, a, b, fuel);
    case _ =>
  }

  lemma CallDepends(s: Stmt, vars: iset<Var>, a: State, b: State, fuel: nat)
    requires s.CallStmt? && Defined(s, vars) && Agree(a.store, b.store, vars) && a.out == b.out
    ensures SameEnd(Exec(s, a, fuel), Exec(s, b, fuel), Assigned(s, vars))
  {
    EvalAllAgrees(s.actuals, a.store, b.store, vars);
    var r := Exec(s.callee.body, State(Bind(map[], s.callee.args, EvalAll(s.actuals, a.store)), a.out), fuel);
    if r.Some? {
      var xs := GetAll(r.value.store, s.callee.results);
      BindSame(a.store, b.store, s.results, xs, vars);
      if |s.results| == |xs| { BindAgrees(a.store, b.store, s.results, xs, vars); }
    }
  }

  lemma {:induction false} RangeDepends(v: Var, i: int, hi: int, body: Stmt, vars: iset<Var>, a: State, b: State,
                                        fuel: nat)
    requires Defined(body, vars + iset{v}) && Agree(a.store, b.store, vars) && a.out == b.out
    ensures SameEnd(ExecRange(v, i, hi, body, a, fuel), ExecRange(v, i, hi, body, b, fuel), vars)
    decreases fuel, body, 1, hi - i
  {
    if i < hi {
      var a', b' := State(a.store[v := i], a.out), State(b.store[v := i], b.out);
      DependsOnAssigned(body, vars + iset{v}, a', b', fuel);
      AssignedGrows(body, vars + iset{v});
      if Exec(body, a', fuel).Some? {
        RangeDepends(v, i + 1, hi, body, vars, Exec(body, a', fuel).value, Exec(body, b', fuel).value, fuel);
      }
    }
  }

  /** Variables that are not written keep their values. */
  lemma {:induction false} Unwritten(s: Stmt, a: State, fuel: nat, v: Var)
    requires v !in Writes(s) && Exec(s, a, fuel).Some?
    ensures Get(Exec(s, a, fuel).value.store, v) == Get(a.store, v)
    decreases fuel, s, 0
  {
    match s
    case Block(first, rest) =>
      Unwritten(first, a, fuel, v);
      Unwritten(rest, Exec(first, a, fuel).value, fuel, v);
    case Scope(scoped) => Unwritten(scoped, a, fuel, v);
    case IfThenElse(c, t, e) =>
      if Eval(c, a.store) != 0 { Unwritten(t, a, fuel, v); } else { Unwritten(e, a, fuel, v); }
    case ForRange(w, start, end, body) => UnwrittenRange(w, Eval(start, a.store), Eval(end, a.store), body, a, fuel, v);
    case While(c, body) =>
      if Eval(c, a.store) != 0 {
        Unwritten(body, a, fuel, v);
        Unwritten(s, Exec(body, a, fuel).value, fuel - 1, v);
      }
    case CallStmt(results, callee, actuals) =>
      var r := Exec(callee.body, State(Bind(map[], callee.args, EvalAll(actuals, a.store)), a.out), fuel);
      BindElsewhere(a.store, results, GetAll(r.value.store, callee.results), v);
    case _ =>
  }

  lemma {:induction false} UnwrittenRange(w: Var, i: int, hi: int, body: Stmt, a: State, fuel: nat, v: Var)
    requires v !in Writes(body) && v != w && ExecRange(w, i, hi, body, a, fuel).Some?
    ensures Get(ExecRange(w, i, hi, body, a, fuel).value.store, v) == Get(a.store, v)
    decreases fuel, body, 1, hi - i
  {
    if i < hi {
      Unwritten(body, State(a.store[w := i], a.out), fuel, v);
      UnwrittenRange(w, i + 1, hi, body, Exec(body, State(a.store[w := i], a.out), fuel).value, fuel, v);
    }
  }
}
