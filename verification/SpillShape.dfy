/** What the spilling rewriter does to a program: chosen operands become new temporaries, everywhere. */
module SpillShape {
  import opened IR
  import opened Spill

  // ---------- Spilled expressions ----------

  /** Assignments to the temporaries lo..hi-1, one after the other. */
  ghost predicate NewTemps(stmts: seq<Stmt>, lo: Var, hi: Var) {
    && lo <= hi && |stmts| == hi - lo
    && forall i :: 0 <= i < |stmts| ==> stmts[i].AssignStmt? && !stmts[i].add && stmts[i].v == lo + i
  }

  /** What stands for an operand: itself, or a temporary that one of the statements assigns it to. */
  ghost predicate StandsFor(spilled: bool, operand: Expr, x: Expr, stmts: seq<Stmt>) {
    if spilled then x.VarExpr? && AssignStmt(x.v, operand, false) in stmts else x == operand
  }

  /** x is e with every chosen operand, from the innermost operator outwards, in a temporary of its own. */
  ghost predicate IsSpilled(choose: Choice, e: Expr, stmts: seq<Stmt>, x: Expr)
    decreases e
  {
    match e
    case Binary(op, a, b) =>
      && x.Binary? && x.op == op
      && exists l: Expr, r: Expr :: IsSpilled(choose, a, stmts, l) && IsSpilled(choose, b, stmts, r) &&
                                    StandsFor(choose(op, l, r).0, l, x.a, stmts) &&
                                    StandsFor(choose(op, l, r).1, r, x.b, stmts)
    case _ => x == e
  }

  ghost predicate ExprSpilled(choose: Choice, e: Expr, stmts: seq<Stmt>, x: Expr, lo: Var, hi: Var) {
    NewTemps(stmts, lo, hi) && IsSpilled(choose, e, stmts, x)
  }

  lemma {:induction false} AmongMore(choose: Choice, e: Expr, stmts: seq<Stmt>, more: seq<Stmt>, x: Expr)
    requires IsSpilled(choose, e, stmts, x) && forall s :: s in stmts ==> s in more
    ensures IsSpilled(choose, e, more, x)
    decreases e
  {
    match e
    case Binary(op, a, b) =>
      var l, r :| IsSpilled(choose, a, stmts, l) && IsSpilled(choose, b, stmts, r) &&
                  StandsFor(choose(op, l, r).0, l, x.a, stmts) && StandsFor(choose(op, l, r).1, r, x.b, stmts);
      AmongMore(choose, a, stmts, more, l);
      AmongMore(choose, b, stmts, more, r);
      assert StandsFor(choose(op, l, r).0, l, x.a, more) && StandsFor(choose(op, l, r).1, r, x.b, more);
    case _ =>
  }

  lemma NewTempsConcat(a: seq<Stmt>, b: seq<Stmt>, lo: Var, mid: Var, hi: Var)
    requires NewTemps(a, lo, mid) && NewTemps(b, mid, hi)
    ensures NewTemps(a + b, lo, hi)
  {
  }

  lemma TempStandsFor(doit: bool, e: Expr, next: Var)
    ensures var z := ToTemp(doit, e, next); NewTemps(z.stmts, next, z.next) && StandsFor(doit, e, z.expr, z.stmts)
  {
  }

  /** The rewriter spills exactly what is chosen: every chosen operand is a new temporary, whose spilled assignment
      has that operand as its value, and the other operands stay. */
  lemma {:induction false} SpillExprSpills(choose: Choice, e: Expr, next: Var)
    ensures var r := SpillExpr(choose, e, next); ExprSpilled(choose, e, r.stmts, r.expr, next, r.next)
    decreases e
  {
    match e
    case Binary(op, a, b) =>
      var x := SpillExpr(choose, a, next);
      var y := SpillExpr(choose, b, x.next);
      var z := ToTemp(choose(op, x.expr, y.expr).0, x.expr, y.next);
      var w := ToTemp(choose(op, x.expr, y.expr).1, y.expr, z.next);
      SpillExprSpills(choose, a, next);
      SpillExprSpills(choose, b, x.next);
      BinarySpilled(choose, op, a, b, x, y, z, w, next);
      SpillBinaryIs(choose, op, a, b, next);
    case _ =>
  }

  lemma BinarySpilled(choose: Choice, op: Op, a: Expr, b: Expr, x: Spilled, y: Spilled, z: Spilled, w: Spilled,
                      next: Var)
    requires ExprSpilled(choose, a, x.stmts, x.expr, next, x.next)
    requires ExprSpilled(choose, b, y.stmts, y.expr, x.next, y.next)
    requires z == ToTemp(choose(op, x.expr, y.expr).0, x.expr, y.next)
    requires w == ToTemp(choose(op, x.expr, y.expr).1, y.expr, z.next)
    ensures ExprSpilled(choose, Binary(op, a, b), x.stmts + y.stmts + z.stmts + w.stmts, Binary(op, z.expr, w.expr),
              next, w.next)
  {
    hide NewTemps, ToTemp;
    var all := x.stmts + y.stmts + z.stmts + w.stmts;
    TempStandsFor(choose(op, x.expr, y.expr).0, x.expr, y.next);
    TempStandsFor(choose(op, x.expr, y.expr).1, y.expr, z.next);
    NewTempsConcat(x.stmts, y.stmts, next, x.next, y.next);
    NewTempsConcat(x.stmts + y.stmts, z.stmts, next, y.next, z.next);
    NewTempsConcat(x.stmts + y.stmts + z.stmts, w.stmts, next, z.next, w.next);
    AmongMore(choose, a, x.stmts, all, x.expr);
    AmongMore(choose, b, y.stmts, all, y.expr);
    assert StandsFor(choose(op, x.expr, y.expr).0, x.expr, z.expr, all);
    assert StandsFor(choose(op, x.expr, y.expr).1, y.expr, w.expr, all);
  }

  ghost predicate AllSpilled(choose: Choice, es: seq<Expr>, stmts: seq<Stmt>, xs: seq<Expr>, lo: Var, hi: Var) {
    NewTemps(stmts, lo, hi) && |xs| == |es| && forall i :: 0 <= i < |es| ==> IsSpilled(choose, es[i], stmts, xs[i])
  }

  lemma {:induction false} SpillAllSpills(choose: Choice, es: seq<Expr>, next: Var)
    ensures var r := SpillAll(choose, es, next); AllSpilled(choose, es, r.0, r.1, next, r.2)
    decreases |es|
  {
    hide SpillExpr, IsSpilled, NewTemps;
    if es == [] {
      assert NewTemps([], next, next) by { NoNewTemps(next); }
    } else {
      var k := |es| - 1;
      var front := SpillAll(choose, es[..k], next);
      var x := SpillExpr(choose, es[k], front.2);
      SpillAllSpills(choose, es[..k], next);
      SpillExprSpills(choose, es[k], front.2);
      NewTempsConcat(front.0, x.stmts, next, front.2, x.next);
      forall i | 0 <= i < |es| ensures IsSpilled(choose, es[i], front.0 + x.stmts, (front.1 + [x.expr])[i]) {
        if i < k {
          AmongMore(choose, es[..k][i], front.0, front.0 + x.stmts, front.1[i]);
        } else {
          AmongMore(choose, es[k], x.stmts, front.0 + x.stmts, x.expr);
        }
      }
    }
  }

  lemma NoNewTemps(next: Var)
    ensures NewTemps([], next, next)
  {
  }

  // ---------- Spilled statements ----------

  /** t is s with its expressions spilled, the temporaries lo..hi-1 being used for that: spilled assignments stand
      before the statement, those of a loop condition at the end of the body too. */
  ghost predicate StmtSpilled(choose: Choice, s: Stmt, t: Stmt, lo: Var, hi: Var)
    decreases s
  {
    match s
    case Pass => t == s && lo == hi
    case VarDecl(_) => t == s && lo == hi
    case AssignStmt(v, e, add) =>
      exists stmts: seq<Stmt>, x: Expr ::
        t == After(stmts, AssignStmt(v, x, add)) && ExprSpilled(choose, e, stmts, x, lo, hi)
    case Block(first, rest) =>
      t.Block? && exists mid: Var :: StmtSpilled(choose, first, t.first, lo, mid) &&
                                     StmtSpilled(choose, rest, t.rest, mid, hi)
    case Scope(scoped) => t.Scope? && StmtSpilled(choose, scoped, t.scoped, lo, hi)
    case IfThenElse(c, a, b) =>
      exists stmts: seq<Stmt>, x: Expr, a': Stmt, b': Stmt, m: Var, n: Var ::
        t == After(stmts, IfThenElse(x, a', b')) && ExprSpilled(choose, c, stmts, x, lo, m) &&
        StmtSpilled(choose, a, a', m, n) && StmtSpilled(choose, b, b', n, hi)
    case ForRange(v, start, end, body) =>
      exists ss: seq<Stmt>, x: Expr, es: seq<Stmt>, y: Expr, b': Stmt, m: Var, n: Var ::
        t == After(ss + es, ForRange(v, x, y, b')) && ExprSpilled(choose, start, ss, x, lo, m) &&
        ExprSpilled(choose, end, es, y, m, n) && StmtSpilled(choose, body, b', n, hi)
    case While(c, body) =>
      exists stmts: seq<Stmt>, x: Expr, b': Stmt, m: Var ::
        t == After(stmts, While(x, if stmts == [] then b' else Block(b', MakeBlock(stmts)))) &&
        ExprSpilled(choose, c, stmts, x, lo, m) && StmtSpilled(choose, body, b', m, hi)
    case Print(e) =>
      exists stmts: seq<Stmt>, x: Expr :: t == After(stmts, Print(x)) && ExprSpilled(choose, e, stmts, x, lo, hi)
    case CallStmt(results, callee, actuals) =>
      exists stmts: seq<Stmt>, xs: seq<Expr> ::
        t == After(stmts, CallStmt(results, callee, xs)) && AllSpilled(choose, actuals, stmts, xs, lo, hi)
  }

  /** Every expression of the program is spilled, in every form of statement. */
  lemma {:induction false} ProgramSpilled(choose: Choice, s: Stmt, next: Var)
    ensures var r := Rewritten(choose, s, next); StmtSpilled(choose, s, r.0, next, r.1)
    decreases s
  {
    hide SpillExpr, SpillAll, ExprSpilled, AllSpilled, After;
    match s
    case AssignStmt(_, e, _) => SpillExprSpills(choose, e, next);
    case Block(first, rest) =>
      var f := Rewritten(choose, first, next);
      ProgramSpilled(choose, first, next);
      ProgramSpilled(choose, rest, f.1);
    case Scope(scoped) => ProgramSpilled(choose, scoped, next);
    case IfThenElse(c, a, b) =>
      var x := SpillExpr(choose, c, next);
      SpillExprSpills(choose, c, next);
      ProgramSpilled(choose, a, x.next);
      ProgramSpilled(choose, b, Rewritten(choose, a, x.next).1);
    case ForRange(_, start, end, body) =>
      var x := SpillExpr(choose, start, next);
      var y := SpillExpr(choose, end, x.next);
      SpillExprSpills(choose, start, next);
      SpillExprSpills(choose, end, x.next);
      ProgramSpilled(choose, body, y.next);
    case While(c, body) =>
      SpillExprSpills(choose, c, next);
      ProgramSpilled(choose, body, SpillExpr(choose, c, next).next);
    case Print(e) => SpillExprSpills(choose, e, next);
    case CallStmt(_, _, actuals) => SpillAllSpills(choose, actuals, next);
    case _ =>
  }

  // ---------- Flat programs ----------

  /** No operator below an operator. */
  predicate FlatExpr(e: Expr)
  {
    e.Binary? ==> !e.a.Binary? && !e.b.Binary?
  }

  predicate FlatExprs(es: seq<Expr>) {
    forall i :: 0 <= i < |es| ==> FlatExpr(es[i])
  }

  predicate FlatStmt(s: Stmt)
  {
    match s
    case AssignStmt(_, e, _) => FlatExpr(e)
    case Block(first, rest) => FlatStmt(first) && FlatStmt(rest)
    case Scope(scoped) => FlatStmt(scoped)
    case IfThenElse(c, t, e) => FlatExpr(c) && FlatStmt(t) && FlatStmt(e)
    case ForRange(_, start, end, body) => FlatExpr(start) && FlatExpr(end) && FlatStmt(body)
    case While(c, body) => FlatExpr(c) && FlatStmt(body)
    case Print(e) => FlatExpr(e)
    case CallStmt(_, _, actuals) => FlatExprs(actuals)
    case _ => true
  }

  predicate FlatStmts(stmts: seq<Stmt>) {
    forall i :: 0 <= i < |stmts| ==> FlatStmt(stmts[i])
  }

  /** Operands that are operators are always spilled. */
  ghost predicate SpillsOperators(choose: Choice) {
    forall op: Op, a: Expr, b: Expr ::
      (a.Binary? ==> choose(op, a, b).0) && (b.Binary? ==> choose(op, a, b).1)
  }

  lemma {:induction false} FlatSpill(choose: Choice, e: Expr, next: Var)
    requires SpillsOperators(choose)
    ensures var r := SpillExpr(choose, e, next); FlatExpr(r.expr) && FlatStmts(r.stmts)
    decreases e
  {
    hide FlatStmt, ToTemp, SpillsOperators;
    match e
    case Binary(op, a, b) =>
      var x := SpillExpr(choose, a, next);
      var y := SpillExpr(choose, b, x.next);
      FlatSpill(choose, a, next);
      FlatSpill(choose, b, x.next);
      FlatBinary(choose, op, x, y);
      SpillBinaryIs(choose, op, a, b, next);
    case _ =>
  }

  lemma FlatBinary(choose: Choice, op: Op, x: Spilled, y: Spilled)
    requires SpillsOperators(choose)
    requires FlatExpr(x.expr) && FlatStmts(x.stmts) && FlatExpr(y.expr) && FlatStmts(y.stmts)
    ensures var z := ToTemp(choose(op, x.expr, y.expr).0, x.expr, y.next);
            var w := ToTemp(choose(op, x.expr, y.expr).1, y.expr, z.next);
            FlatExpr(Binary(op, z.expr, w.expr)) && FlatStmts(x.stmts + y.stmts + z.stmts + w.stmts)
  {
  }

  lemma {:induction false} FlatSpillAll(choose: Choice, es: seq<Expr>, next: Var)
    requires SpillsOperators(choose)
    ensures var r := SpillAll(choose, es, next); FlatExprs(r.1) && FlatStmts(r.0)
    decreases |es|
  {
    hide SpillExpr, FlatStmt, FlatExpr;
    if es != [] {
      FlatSpillAll(choose, es[..|es| - 1], next);
      FlatSpill(choose, es[|es| - 1], SpillAll(choose, es[..|es| - 1], next).2);
    }
  }

  lemma {:induction false} FlatBlock(stmts: seq<Stmt>)
    requires FlatStmts(stmts)
    ensures FlatStmt(MakeBlock(stmts))
    decreases |stmts|
  {
    if stmts != [] { FlatBlock(stmts[1..]); }
  }

  lemma FlatAfter(stmts: seq<Stmt>, s: Stmt)
    requires FlatStmts(stmts) && FlatStmt(s)
    ensures FlatStmt(After(stmts, s)) && FlatStmt(MakeBlock(stmts))
  {
    FlatBlock(stmts);
  }

  /** If every operator operand is spilled, the rewritten program has no operator below an operator: in no value,
      condition, bound or actual, whether the statement was there before or was spilled. */
  lemma {:induction false} RewrittenIsFlat(choose: Choice, s: Stmt, next: Var)
    requires SpillsOperators(choose)
    ensures FlatStmt(Rewritten(choose, s, next).0)
    decreases s
  {
    hide SpillExpr, SpillAll, SpillsOperators, FlatExpr, FlatExprs, FlatStmts, After, MakeBlock;
    match s
    case AssignStmt(v, e, add) =>
      var x := SpillExpr(choose, e, next);
      FlatSpill(choose, e, next);
      FlatAfter(x.stmts, AssignStmt(v, x.expr, add));
    case Block(first, rest) =>
      RewrittenIsFlat(choose, first, next);
      RewrittenIsFlat(choose, rest, Rewritten(choose, first, next).1);
    case Scope(scoped) => RewrittenIsFlat(choose, scoped, next);
    case IfThenElse(c, a, b) =>
      var x := SpillExpr(choose, c, next);
      var a' := Rewritten(choose, a, x.next);
      FlatSpill(choose, c, next);
      RewrittenIsFlat(choose, a, x.next);
      RewrittenIsFlat(choose, b, a'.1);
      FlatAfter(x.stmts, IfThenElse(x.expr, a'.0, Rewritten(choose, b, a'.1).0));
    case ForRange(v, start, end, body) =>
      var x := SpillExpr(choose, start, next);
      var y := SpillExpr(choose, end, x.next);
      FlatSpill(choose, start, next);
      FlatSpill(choose, end, x.next);
      FlatTogether(x.stmts, y.stmts);
      RewrittenIsFlat(choose, body, y.next);
      FlatAfter(x.stmts + y.stmts, ForRange(v, x.expr, y.expr, Rewritten(choose, body, y.next).0));
    case While(c, body) =>
      var x := SpillExpr(choose, c, next);
      var b := Rewritten(choose, body, x.next).0;
      FlatSpill(choose, c, next);
      RewrittenIsFlat(choose, body, x.next);
      FlatAfter(x.stmts, b);
      FlatAfter(x.stmts, While(x.expr, if x.stmts == [] then b else Block(b, MakeBlock(x.stmts))));
    case Print(e) =>
      var x := SpillExpr(choose, e, next);
      FlatSpill(choose, e, next);
      FlatAfter(x.stmts, Print(x.expr));
    case CallStmt(results, callee, actuals) =>
      var x := SpillAll(choose, actuals, next);
      FlatSpillAll(choose, actuals, next);
      FlatAfter(x.0, CallStmt(results, callee, x.1));
    case _ =>
  }

  lemma FlatTogether(a: seq<Stmt>, b: seq<Stmt>)
    requires FlatStmts(a) && FlatStmts(b)
    ensures FlatStmts(a + b)
  {
  }
}
