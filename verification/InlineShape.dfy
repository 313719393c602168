/** What the call inliner does to a program: chosen calls become the bodies of their callees, everything else stays. */
module InlineShape {
  import opened IR
  import opened Inline
  import opened CallInlining

  /** The same statements, up to variables and expressions. */
  predicate SameShape(s: Stmt, t: Stmt)
  {
    match s
    case Pass => t.Pass?
    case VarDecl(_) => t.VarDecl?
    case AssignStmt(_, _, add) => t.AssignStmt? && t.add == add
    case Block(a, b) => t.Block? && SameShape(a, t.first) && SameShape(b, t.rest)
    case Scope(a) => t.Scope? && SameShape(a, t.scoped)
    case IfThenElse(_, a, b) => t.IfThenElse? && SameShape(a, t.thenBody) && SameShape(b, t.elseBody)
    case ForRange(_, _, _, a) => t.ForRange? && SameShape(a, t.body)
    case While(_, a) => t.While? && SameShape(a, t.body)
    case Print(_) => t.Print?
    case CallStmt(_, f, _) => t.CallStmt? && t.callee == f
  }

  lemma {:induction false} RenamingKeepsShape(s: Stmt, t: Stmt, init: Var, final: Var)
    requires SameShape(s, t)
    ensures SameShape(s, ReplaceVar(t, init, final))
  {
    match s
    case Block(a, b) => RenamingKeepsShape(a, t.first, init, final); RenamingKeepsShape(b, t.rest, init, final);
    case Scope(a) => RenamingKeepsShape(a, t.scoped, init, final);
    case IfThenElse(_, a, b) =>
      RenamingKeepsShape(a, t.thenBody, init, final); RenamingKeepsShape(b, t.elseBody, init, final);
    case ForRange(_, _, _, a) => RenamingKeepsShape(a, t.body, init, final);
    case While(_, a) => RenamingKeepsShape(a, t.body, init, final);
    case _ =>
  }

  lemma {:induction false} ReplacingKeepsShape(s: Stmt, t: Stmt, init: Var, final: Expr)
    requires SameShape(s, t)
    ensures SameShape(s, ReplaceVarByExpr(t, init, final))
  {
    match s
    case Block(a, b) => ReplacingKeepsShape(a, t.first, init, final); ReplacingKeepsShape(b, t.rest, init, final);
    case Scope(a) => ReplacingKeepsShape(a, t.scoped, init, final);
    case IfThenElse(_, a, b) =>
      ReplacingKeepsShape(a, t.thenBody, init, final); ReplacingKeepsShape(b, t.elseBody, init, final);
    case ForRange(_, _, _, a) => ReplacingKeepsShape(a, t.body, init, final);
    case While(_, a) => ReplacingKeepsShape(a, t.body, init, final);
    case _ =>
  }

  lemma {:induction false} ShapeOfItself(s: Stmt)
    ensures SameShape(s, s)
  {
    match s
    case Block(a, b) => ShapeOfItself(a); ShapeOfItself(b);
    case Scope(a) => ShapeOfItself(a);
    case IfThenElse(_, a, b) => ShapeOfItself(a); ShapeOfItself(b);
    case ForRange(_, _, _, a) => ShapeOfItself(a);
    case While(_, a) => ShapeOfItself(a);
    case _ =>
  }

  /** t is the body in a scope, possibly with temporaries declared before it and copied to results behind it. */
  predicate IsBody(t: Stmt, body: Stmt)
  {
    match t
    case Scope(b) => SameShape(body, b)
    case Block(VarDecl(_), Block(inner, AssignStmt(_, VarExpr(_), false))) => IsBody(inner, body)
    case _ => false
  }

  lemma {:induction false} RenamingKeepsBody(t: Stmt, body: Stmt, init: Var, final: Var)
    requires IsBody(t, body)
    ensures IsBody(ReplaceVar(t, init, final), body)
  {
    if t.Scope? {
      RenamingKeepsShape(body, t.scoped, init, final);
    } else {
      RenamingKeepsBody(t.rest.first, body, init, final);
      var copy := t.rest.rest;
      assert ReplaceVar(t, init, final) ==
             Block(ReplaceVar(t.first, init, final),
                   Block(ReplaceVar(t.rest.first, init, final), ReplaceVar(copy, init, final)));
      assert ReplaceVar(copy, init, final) ==
             AssignStmt(Renamed(copy.v, init, final), VarExpr(Renamed(copy.value.v, init, final)), false);
    }
  }

  lemma {:induction false} ArgsKeepShape(s: Stmt, t: Stmt, args: seq<Var>, actuals: seq<Expr>)
    requires |args| == |actuals| && SameShape(s, t)
    ensures SameShape(s, InlineArgs(t, args, actuals))
    decreases |args|
  {
    if args != [] {
      ReplacingKeepsShape(s, t, args[0], actuals[0]);
      ArgsKeepShape(s, ReplaceVarByExpr(t, args[0], actuals[0]), args[1..], actuals[1..]);
    }
  }

  lemma {:induction false} ResultsKeepBody(t: Stmt, body: Stmt, results: seq<Var>, targets: seq<Var>,
                                           referenced: set<Var>, next: Var)
    requires |results| == |targets| && IsBody(t, body)
    ensures IsBody(InlineResults(t, results, targets, referenced, next).0, body)
    decreases |results|
  {
    hide ReplaceVar;
    if results != [] {
      var staged := targets[0] in referenced;
      RenamingKeepsBody(t, body, results[0], if staged then next else targets[0]);
      var (first, n) := InlineResult(t, results[0], targets[0], staged, next);
      ResultsKeepBody(first, body, results[1..], targets[1..], referenced, n);
    }
  }

  lemma CallBecomesBody(call: Stmt, next: Var)
    requires call.CallStmt? && |call.callee.args| == |call.actuals| && |call.callee.results| == |call.results|
    ensures IsBody(InlineCall(call, next).0, call.callee.body)
  {
    hide ReplaceVar, ReplaceVarByExpr;
    var body := Scope(call.callee.body);
    ShapeOfItself(body);
    ArgsKeepShape(body, body, call.callee.args, call.actuals);
    ResultsKeepBody(InlineArgs(body, call.callee.args, call.actuals), call.callee.body, call.callee.results,
      call.results, ReadsAll(call.actuals), next);
  }

  /** t is s with the chosen calls replaced by the bodies of their callees. */
  ghost predicate Inlined(should: Stmt -> bool, s: Stmt, t: Stmt)
    decreases s
  {
    match s
    case Block(a, b) => t.Block? && Inlined(should, a, t.first) && Inlined(should, b, t.rest)
    case Scope(a) => t.Scope? && Inlined(should, a, t.scoped)
    case IfThenElse(c, a, b) =>
      t.IfThenElse? && t.condition == c && Inlined(should, a, t.thenBody) && Inlined(should, b, t.elseBody)
    case ForRange(v, start, end, a) =>
      t.ForRange? && t.v == v && t.start == start && t.end == end && Inlined(should, a, t.body)
    case While(c, a) => t.While? && t.condition == c && Inlined(should, a, t.body)
    case CallStmt(_, f, _) => if should(s) then IsBody(t, f.body) else t == s
    case _ => t == s
  }

  /** Every chosen call is replaced by the body of its callee, and nothing else changes. */
  lemma {:induction false} ProgramInlined(should: Stmt -> bool, s: Stmt, next: Var)
    requires CallsFit(s)
    ensures Inlined(should, s, InlineAll(should, s, next).0)
  {
    hide InlineCall;
    match s
    case Block(a, b) =>
      ProgramInlined(should, a, next);
      ProgramInlined(should, b, InlineAll(should, a, next).1);
    case Scope(a) => ProgramInlined(should, a, next);
    case IfThenElse(_, a, b) =>
      ProgramInlined(should, a, next);
      ProgramInlined(should, b, InlineAll(should, a, next).1);
    case ForRange(_, _, _, a) => ProgramInlined(should, a, next);
    case While(_, a) => ProgramInlined(should, a, next);
    case CallStmt(_, _, _) => if should(s) { CallBecomesBody(s, next); }
    case _ =>
  }

  // ---------- Calls that are left ----------

  predicate NoCalls(s: Stmt)
  {
    match s
    case Block(a, b) => NoCalls(a) && NoCalls(b)
    case Scope(a) => NoCalls(a)
    case IfThenElse(_, a, b) => NoCalls(a) && NoCalls(b)
    case ForRange(_, _, _, a) => NoCalls(a)
    case While(_, a) => NoCalls(a)
    case CallStmt(_, _, _) => false
    case _ => true
  }

  /** Every call is chosen, and callees call nothing. */
  ghost predicate LeafCalls(should: Stmt -> bool, s: Stmt)
  {
    match s
    case Block(a, b) => LeafCalls(should, a) && LeafCalls(should, b)
    case Scope(a) => LeafCalls(should, a)
    case IfThenElse(_, a, b) => LeafCalls(should, a) && LeafCalls(should, b)
    case ForRange(_, _, _, a) => LeafCalls(should, a)
    case While(_, a) => LeafCalls(should, a)
    case CallStmt(_, f, _) => should(s) && NoCalls(f.body)
    case _ => true
  }

  lemma {:induction false} ShapeKeepsCalls(s: Stmt, t: Stmt)
    requires SameShape(s, t) && NoCalls(s)
    ensures NoCalls(t)
  {
    match s
    case Block(a, b) => ShapeKeepsCalls(a, t.first); ShapeKeepsCalls(b, t.rest);
    case Scope(a) => ShapeKeepsCalls(a, t.scoped);
    case IfThenElse(_, a, b) => ShapeKeepsCalls(a, t.thenBody); ShapeKeepsCalls(b, t.elseBody);
    case ForRange(_, _, _, a) => ShapeKeepsCalls(a, t.body);
    case While(_, a) => ShapeKeepsCalls(a, t.body);
    case _ =>
  }

  lemma {:induction false} BodyKeepsCalls(t: Stmt, body: Stmt)
    requires IsBody(t, body) && NoCalls(body)
    ensures NoCalls(t)
  {
    match t
    case Scope(b) => ShapeKeepsCalls(body, b);
    case Block(VarDecl(_), Block(inner, AssignStmt(_, VarExpr(_), false))) => BodyKeepsCalls(inner, body);
  }

  /** Inlining every call of a program whose callees call nothing leaves no call. */
  lemma {:induction false} NoCallsLeft(should: Stmt -> bool, s: Stmt, t: Stmt)
    requires Inlined(should, s, t) && LeafCalls(should, s)
    ensures NoCalls(t)
    decreases s
  {
    match s
    case Block(a, b) => NoCallsLeft(should, a, t.first); NoCallsLeft(should, b, t.rest);
    case Scope(a) => NoCallsLeft(should, a, t.scoped);
    case IfThenElse(_, a, b) => NoCallsLeft(should, a, t.thenBody); NoCallsLeft(should, b, t.elseBody);
    case ForRange(_, _, _, a) => NoCallsLeft(should, a, t.body);
    case While(_, a) => NoCallsLeft(should, a, t.body);
    case CallStmt(_, f, _) => BodyKeepsCalls(t, f.body);
    case _ =>
  }
}
