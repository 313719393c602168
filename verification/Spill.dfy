/** The rewriter that spills parts of expressions into assignments before the statement, and why
    that does not change what a program does.
 */
module Spill {
  import opened Wrappers
  import opened IR

  /** Which operands to spill, given the rewritten operands of an operator. */
  type Choice = (Op, Expr, Expr) -> (bool, bool)

  /** Spilled statements, what is left of the expression, and the next temporary. */
  datatype Spilled = Spilled(stmts: seq<Stmt>, expr: Expr, next: Var)

  /** An expression moved to a temporary. */
  function ToTemp(doit: bool, e: Expr, next: Var): (r: Spilled)
  {
    if doit then Spilled([AssignStmt(next, e, false)], VarExpr(next), next + 1) else Spilled([], e, next)
  }

  /** Operands are rewritten from left to right, then spilled as needed. */
  function SpillExpr(choose: Choice, e: Expr, next: Var): (r: Spilled)
  {
    match e
    case Binary(op, a, b) =>
      var x := SpillExpr(choose, a, next);
      var y := SpillExpr(choose, b, x.next);
      var (left, right) := choose(op, x.expr, y.expr);
      var z := ToTemp(left, x.expr, y.next);
      var w := ToTemp(right, y.expr, z.next);
      Spilled(x.stmts + y.stmts + z.stmts + w.stmts, Binary(op, z.expr, w.expr), w.next)
    case _ => Spilled([], e, next)
  }

  function SpillAll(choose: Choice, es: seq<Expr>, next: Var): (r: (seq<Stmt>, seq<Expr>, Var))
    ensures |r.1| == |es|
  {
    if es == [] then ([], [], next) else
      var front := SpillAll(choose, es[..|es| - 1], next);
      var x := SpillExpr(choose, es[|es| - 1], front.2);
      (front.0 + x.stmts, front.1 + [x.expr], x.next)
  }

  /** Block::make of a list. */
  function MakeBlock(stmts: seq<Stmt>): (s: Stmt)
  {
    if stmts == [] then Pass else Block(stmts[0], MakeBlock(stmts[1..]))
  }

  /** Spilled statements go before the statement. */
  function After(stmts: seq<Stmt>, s: Stmt): (r: Stmt)
  {
    if stmts == [] then s else Block(MakeBlock(stmts), s)
  }

  /** The rewritten statement and the next temporary.  A loop condition is spilled before the loop
      and again at the end of its body. */
  function Rewritten(choose: Choice, s: Stmt, next: Var): (r: (Stmt, Var))
  {
    match s
    case Pass => (s, next)
    case VarDecl(_) => (s, next)
    case AssignStmt(v, e, add) =>
      var x := SpillExpr(choose, e, next);
      (After(x.stmts, AssignStmt(v, x.expr, add)), x.next)
    case Block(first, rest) =>
      var (f, n) := Rewritten(choose, first, next);
      var (r, m) := Rewritten(choose, rest, n);
      (Block(f, r), m)
    case Scope(scoped) =>
      var (b, n) := Rewritten(choose, scoped, next);
      (Scope(b), n)
    case IfThenElse(c, t, e) =>
      var x := SpillExpr(choose, c, next);
      var (t', n) := Rewritten(choose, t, x.next);
      var (e', m) := Rewritten(choose, e, n);
      (After(x.stmts, IfThenElse(x.expr, t', e')), m)
    case ForRange(v, start, end, body) =>
      var x := SpillExpr(choose, start, next);
      var y := SpillExpr(choose, end, x.next);
      var (b, n) := Rewritten(choose, body, y.next);
      (After(x.stmts + y.stmts, ForRange(v, x.expr, y.expr, b)), n)
    case While(c, body) =>
      var x := SpillExpr(choose, c, next);
      var (b, n) := Rewritten(choose, body, x.next);
      var b' := if x.stmts == [] then b else Block(b, MakeBlock(x.stmts));
      (After(x.stmts, While(x.expr, b')), n)
    case Print(e) =>
      var x := SpillExpr(choose, e, next);
      (After(x.stmts, Print(x.expr)), x.next)
    case CallStmt(results, callee, actuals) =>
      var x := SpillAll(choose, actuals, next);
      (After(x.0, CallStmt(results, callee, x.1)), x.2)
  }

  // ---------- Spilled statements ----------

  /** All variables of an expression are before n. */
  ghost predicate Below(e: Expr, n: Var) {
    forall v :: v in Reads(e) ==> v < n
  }

  /** Variables before n. */
  ghost function Old(n: Var): (vars: iset<Var>) {
    iset v: Var | Before(v, n)
  }

  predicate Before(v: Var, n: Var) {
    v < n
  }

  /** Assignments to temporaries lo..hi-1, each reading what is before its target. */
  ghost predicate Temps(stmts: seq<Stmt>, lo: Var, hi: Var) {
    forall i :: 0 <= i < |stmts| ==>
      stmts[i].AssignStmt? && !stmts[i].add && lo <= stmts[i].v < hi
  }

  /** The store after the assignments. */
  function RunTemps(stmts: seq<Stmt>, s: Store): (r: Store)
    requires forall i :: 0 <= i < |stmts| ==> stmts[i].AssignStmt?
  {
    if stmts == [] then s else RunTemps(stmts[1..], s[stmts[0].v := Eval(stmts[0].value, s)])
  }

  lemma {:induction false} RunConcat(a: seq<Stmt>, b: seq<Stmt>, s: Store)
    requires forall i :: 0 <= i < |a| ==> a[i].AssignStmt?
    requires forall i :: 0 <= i < |b| ==> b[i].AssignStmt?
    ensures RunTemps(a + b, s) == RunTemps(b, RunTemps(a, s))
  {
    if a == [] {
      assert a + b == b;
    } else {
      assert (a + b)[1..] == a[1..] + b;
      RunConcat(a[1..], b, s[a[0].v := Eval(a[0].value, s)]);
    }
  }

  lemma {:induction false} RunKeepsOld(stmts: seq<Stmt>, s: Store, lo: Var, hi: Var)
    requires Temps(stmts, lo, hi)
    ensures Agree(RunTemps(stmts, s), s, Old(lo))
  {
    if stmts != [] { RunKeepsOld(stmts[1..], s[stmts[0].v := Eval(stmts[0].value, s)], lo, hi); }
  }

  lemma {:induction false} ExecTemps(stmts: seq<Stmt>, st: State, fuel: nat, lo: Var, hi: Var)
    requires Temps(stmts, lo, hi)
    ensures Exec(MakeBlock(stmts), st, fuel) == Some(State(RunTemps(stmts, st.store), st.out))
  {
    if stmts != [] {
      ExecTemps(stmts[1..], State(st.store[stmts[0].v := Eval(stmts[0].value, st.store)], st.out), fuel, lo, hi);
    }
  }

  lemma ExecAfter(stmts: seq<Stmt>, s: Stmt, st: State, fuel: nat, lo: Var, hi: Var)
    requires Temps(stmts, lo, hi)
    ensures Exec(After(stmts, s), st, fuel) == Exec(s, State(RunTemps(stmts, st.store), st.out), fuel)
  {
    ExecTemps(stmts, st, fuel, lo, hi);
  }

  /** Agreement on old variables is enough for expressions over them. */
  lemma EvalOld(e: Expr, a: Store, b: Store, n: Var)
    requires Below(e, n) && Agree(a, b, Old(n))
    ensures Eval(e, a) == Eval(e, b)
  {
    EvalAgrees(e, a, b, Old(n));
  }

  /** What spilling promises: the temporaries are new, and after the spilled statements the rest has
      the value of the expression. */
  ghost predicate Spills(r: Spilled, e: Expr, next: Var) {
    && next <= r.next && Temps(r.stmts, next, r.next) && Below(r.expr, r.next)
    && forall s: Store :: Eval(r.expr, RunTemps(r.stmts, s)) == Eval(e, s)
  }

  lemma ToTempSpills(doit: bool, e: Expr, next: Var)
    requires Below(e, next)
    ensures Spills(ToTemp(doit, e, next), e, next)
  {
    var r := ToTemp(doit, e, next);
    forall s: Store ensures Eval(r.expr, RunTemps(r.stmts, s)) == Eval(e, s) {
      if doit { assert r.stmts[1..] == []; }
    }
  }

  /** A spilled part keeps its value while later parts are spilled. */
  lemma LaterSpills(r: Spilled, e: Expr, next: Var, later: seq<Stmt>, hi: Var, s: Store)
    requires Spills(r, e, next) && Temps(later, r.next, hi)
    ensures Temps(r.stmts + later, next, if hi > r.next then hi else r.next)
    ensures Eval(r.expr, RunTemps(r.stmts + later, s)) == Eval(e, s)
  {
    RunConcat(r.stmts, later, s);
    RunKeepsOld(later, RunTemps(r.stmts, s), r.next, hi);
    EvalOld(r.expr, RunTemps(later, RunTemps(r.stmts, s)), RunTemps(r.stmts, s), r.next);
  }

  lemma {:induction false} SpillExprWorks(choose: Choice, e: Expr, next: Var)
    requires Below(e, next)
    ensures Spills(SpillExpr(choose, e, next), e, next)
    decreases e, 1
  {
    match e
    case Binary(op, a, b) =>
      SpillBinary(choose, op, a, b, next);
    case _ =>
  }

  lemma {:induction false} SpillBinary(choose: Choice, op: Op, a: Expr, b: Expr, next: Var)
    requires Below(Binary(op, a, b), next)
    ensures Spills(SpillExpr(choose, Binary(op, a, b), next), Binary(op, a, b), next)
    decreases Binary(op, a, b), 0
  {
    var e := Binary(op, a, b);
    var x := SpillExpr(choose, a, next);
    assert Reads(e) == Reads(a) + Reads(b);
    assert Below(a, next) && Below(b, next);
    SpillExprWorks(choose, a, next);
    var y := SpillExpr(choose, b, x.next);
    SpillExprWorks(choose, b, x.next);
    var (left, right) := choose(op, x.expr, y.expr);
    ToTempSpills(left, x.expr, y.next);
    var z := ToTemp(left, x.expr, y.next);
    ToTempSpills(right, y.expr, z.next);
    var w := ToTemp(right, y.expr, z.next);
    BinarySpills(op, a, b, x, y, z, w, next);
  }

  lemma BinarySpills(op: Op, a: Expr, b: Expr, x: Spilled, y: Spilled, z: Spilled, w: Spilled, next: Var)
    requires Below(a, next) && Below(b, next)
    requires Spills(x, a, next) && Spills(y, b, x.next) && Spills(z, x.expr, y.next) && Spills(w, y.expr, z.next)
    ensures Spills(Spilled(x.stmts + y.stmts + z.stmts + w.stmts, Binary(op, z.expr, w.expr), w.next),
            Binary(op, a, b), next)
  {
    hide RunTemps, Temps, Spills;
    var r := Spilled(x.stmts + y.stmts + z.stmts + w.stmts, Binary(op, z.expr, w.expr), w.next);
    SpillsTemps(x, a, next);
    SpillsTemps(y, b, x.next);
    SpillsTemps(z, x.expr, y.next);
    SpillsTemps(w, y.expr, z.next);
    TempsConcat(x.stmts, y.stmts, next, x.next, y.next);
    TempsConcat(x.stmts + y.stmts, z.stmts, next, y.next, z.next);
    TempsConcat(x.stmts + y.stmts + z.stmts, w.stmts, next, z.next, w.next);
    assert Reads(r.expr) == Reads(z.expr) + Reads(w.expr);
    forall s: Store ensures Eval(r.expr, RunTemps(r.stmts, s)) == Eval(Binary(op, a, b), s) {
      FourSpills(a, b, x, y, z, w, next, s);
    }
    IntoSpills(r, Binary(op, a, b), next);
  }

  lemma IntoSpills(r: Spilled, e: Expr, next: Var)
    requires next <= r.next && Temps(r.stmts, next, r.next) && Below(r.expr, r.next)
    requires forall s: Store :: Eval(r.expr, RunTemps(r.stmts, s)) == Eval(e, s)
    ensures Spills(r, e, next)
  {
  }

  lemma TempsConcat(a: seq<Stmt>, b: seq<Stmt>, lo: Var, mid: Var, hi: Var)
    requires Temps(a, lo, mid) && Temps(b, mid, hi) && lo <= mid <= hi
    ensures Temps(a + b, lo, hi) && forall i :: 0 <= i < |a + b| ==> (a + b)[i].AssignStmt?
  {
  }

  lemma FourSpills(a: Expr, b: Expr, x: Spilled, y: Spilled, z: Spilled, w: Spilled, next: Var, s: Store)
    requires Below(a, next) && Below(b, next)
    requires Spills(x, a, next) && Spills(y, b, x.next) && Spills(z, x.expr, y.next) && Spills(w, y.expr, z.next)
    requires var all := x.stmts + y.stmts + z.stmts + w.stmts; forall i :: 0 <= i < |all| ==> all[i].AssignStmt?
    ensures var t := RunTemps(x.stmts + y.stmts + z.stmts + w.stmts, s);
            Eval(z.expr, t) == Eval(a, s) && Eval(w.expr, t) == Eval(b, s)
  {
    hide Spills, Below, Temps;
    assert Temps(x.stmts, next, x.next) && Temps(y.stmts, x.next, y.next) && Temps(z.stmts, y.next, z.next) &&
           Temps(w.stmts, z.next, w.next)
      by { SpillsTemps(x, a, next); SpillsTemps(y, b, x.next); SpillsTemps(z, x.expr, y.next);
        SpillsTemps(w, y.expr, z.next); }
    SpillsTemps(x, a, next);
    SpillsTemps(y, b, x.next);
    SpillsTemps(z, x.expr, y.next);
    SpillsTemps(w, y.expr, z.next);
    var s1 := RunTemps(x.stmts, s);
    var s2 := RunTemps(y.stmts, s1);
    var s3 := RunTemps(z.stmts, s2);
    var s4 := RunTemps(w.stmts, s3);
    RunConcat(x.stmts, y.stmts, s);
    RunConcat(x.stmts + y.stmts, z.stmts, s);
    RunConcat(x.stmts + y.stmts + z.stmts, w.stmts, s);
    SpillsValue(x, a, next, s);
    SpillsValue(y, b, x.next, s1);
    SpillsValue(z, x.expr, y.next, s2);
    SpillsValue(w, y.expr, z.next, s3);
    RunKeepsOld(x.stmts, s, next, x.next);
    EvalOld(b, s1, s, next);
    RunKeepsOld(y.stmts, s1, x.next, y.next);
    EvalOld(x.expr, s2, s1, x.next);
    RunKeepsOld(z.stmts, s2, y.next, z.next);
    EvalOld(y.expr, s3, s2, y.next);
    RunKeepsOld(w.stmts, s3, z.next, w.next);
    EvalOld(z.expr, s4, s3, z.next);
  }

  lemma SpillsTemps(r: Spilled, e: Expr, next: Var)
    requires Spills(r, e, next)
    ensures next <= r.next && Temps(r.stmts, next, r.next) && Below(r.expr, r.next)
    ensures forall i :: 0 <= i < |r.stmts| ==> r.stmts[i].AssignStmt?
  {
  }

  lemma SpillsValue(r: Spilled, e: Expr, next: Var, s: Store)
    requires Spills(r, e, next)
    ensures forall i :: 0 <= i < |r.stmts| ==> r.stmts[i].AssignStmt?
    ensures Eval(r.expr, RunTemps(r.stmts, s)) == Eval(e, s)
  {
  }

  // ---------- Meaning is preserved ----------

  /** All variables of a statement are before n; those of callees are their own. */
  ghost predicate AllBelow(s: Stmt, n: Var)
  {
    match s
    case Pass => true
    case VarDecl(v) => v < n
    case AssignStmt(v, e, _) => v < n && Below(e, n)
    case Block(first, rest) => AllBelow(first, n) && AllBelow(rest, n)
    case Scope(scoped) => AllBelow(scoped, n)
    case IfThenElse(c, t, e) => Below(c, n) && AllBelow(t, n) && AllBelow(e, n)
    case ForRange(v, start, end, body) => v < n && Below(start, n) && Below(end, n) && AllBelow(body, n)
    case While(c, body) => Below(c, n) && AllBelow(body, n)
    case Print(e) => Below(e, n)
    case CallStmt(results, _, actuals) =>
      (forall v :: v in results ==> v < n) && forall i :: 0 <= i < |actuals| ==> Below(actuals[i], n)
  }

  lemma BelowMore(e: Expr, n: Var, m: Var)
    requires Below(e, n) && n <= m
    ensures Below(e, m)
  {
  }

  lemma {:induction false} NextGrows(choose: Choice, s: Stmt, n: Var, next: Var)
    requires AllBelow(s, n) && n <= next
    ensures next <= Rewritten(choose, s, next).1
    decreases s
  {
    match s
    case Block(first, rest) =>
      NextGrows(choose, first, n, next);
      NextGrows(choose, rest, n, Rewritten(choose, first, next).1);
    case Scope(scoped) => NextGrows(choose, scoped, n, next);
    case AssignStmt(_, e, _) => SpillExprWorks(choose, e, next);
    case Print(e) => SpillExprWorks(choose, e, next);
    case IfThenElse(c, t, e) =>
      SpillExprWorks(choose, c, next);
      var x := SpillExpr(choose, c, next);
      NextGrows(choose, t, n, x.next);
      NextGrows(choose, e, n, Rewritten(choose, t, x.next).1);
    case ForRange(_, start, end, body) =>
      SpillExprWorks(choose, start, next);
      var x := SpillExpr(choose, start, next);
      SpillExprWorks(choose, end, x.next);
      NextGrows(choose, body, n, SpillExpr(choose, end, x.next).next);
    case While(c, body) =>
      SpillExprWorks(choose, c, next);
      NextGrows(choose, body, n, SpillExpr(choose, c, next).next);
    case CallStmt(_, _, actuals) => SpillAllWorks(choose, actuals, n, next, map[]);
    case _ =>
  }

  lemma {:induction false} SpillAllWorks(choose: Choice, es: seq<Expr>, n: Var, next: Var, s: Store)
    requires n <= next && forall i :: 0 <= i < |es| ==> Below(es[i], n)
    ensures var r := SpillAll(choose, es, next);
            && next <= r.2 && Temps(r.0, next, r.2) && (forall i :: 0 <= i < |r.1| ==> Below(r.1[i], r.2))
            && forall i :: 0 <= i < |es| ==> Eval(r.1[i], RunTemps(r.0, s)) == Eval(es[i], s)
  {
    if es != [] {
      var front := SpillAll(choose, es[..|es| - 1], next);
      var last := es[|es| - 1];
      SpillAllWorks(choose, es[..|es| - 1], n, next, s);
      var x := SpillExpr(choose, last, front.2);
      SpillExprWorks(choose, last, front.2);
      var r := SpillAll(choose, es, next);
      forall i | 0 <= i < |es| ensures Eval(r.1[i], RunTemps(r.0, s)) == Eval(es[i], s) {
        var t := RunTemps(front.0, s);
        RunConcat(front.0, x.stmts, s);
        RunKeepsOld(x.stmts, t, front.2, x.next);
        RunKeepsOld(front.0, s, next, front.2);
        if i < |es| - 1 {
          EvalOld(front.1[i], RunTemps(x.stmts, t), t, front.2);
        } else {
          SpillsValue(x, last, front.2, t);
          EvalOld(last, t, s, n);
        }
      }
    }
  }

  /** The values after spilling are the values before. */
  lemma SpilledValue(choose: Choice, e: Expr, n: Var, next: Var, a: State, b: State)
    requires Below(e, n) && n <= next && Agree(a.store, b.store, Old(n))
    ensures var x := SpillExpr(choose, e, next);
            && next <= x.next && Temps(x.stmts, next, x.next)
            && Eval(x.expr, RunTemps(x.stmts, b.store)) == Eval(e, a.store)
            && Agree(a.store, RunTemps(x.stmts, b.store), Old(n))
  {
    var x := SpillExpr(choose, e, next);
    SpillExprWorks(choose, e, next);
    SpillsTemps(x, e, next);
    SpillsValue(x, e, next, b.store);
    EvalOld(e, a.store, b.store, n);
    OldKept(x.stmts, a.store, b.store, n, next, x.next);
  }

  lemma OldKept(stmts: seq<Stmt>, a: Store, b: Store, n: Var, lo: Var, hi: Var)
    requires Temps(stmts, lo, hi) && n <= lo && Agree(a, b, Old(n))
    ensures Agree(a, RunTemps(stmts, b), Old(n))
  {
    RunKeepsOld(stmts, b, lo, hi);
    forall v | v in Old(n) ensures Get(a, v) == Get(RunTemps(stmts, b), v) {
      assert v in Old(lo);
    }
  }

  /** Whatever the choices, from states that agree on the program's variables the program and the
      rewritten program both run on or both end, with the same output and the same variables. */
  lemma {:induction false} SpillingPreservesMeaning(choose: Choice, s: Stmt, n: Var, next: Var, a: State, b: State,
                                                    fuel: nat)
    requires AllBelow(s, n) && n <= next && Agree(a.store, b.store, Old(n)) && a.out == b.out
    ensures SameEnd(Exec(s, a, fuel), Exec(Rewritten(choose, s, next).0, b, fuel), Old(n))
    decreases fuel, s, 1
  {
    match s
    case Pass =>
    case VarDecl(_) =>
    case AssignStmt(v, e, add) => AssignPreserved(choose, s, n, next, a, b, fuel);
    case Block(first, rest) =>
      var (f, m) := Rewritten(choose, first, next);
      NextGrows(choose, first, n, next);
      SpillingPreservesMeaning(choose, first, n, next, a, b, fuel);
      if Exec(first, a, fuel).Some? {
        SpillingPreservesMeaning(choose, rest, n, m, Exec(first, a, fuel).value, Exec(f, b, fuel).value, fuel);
      }
    case Scope(scoped) => SpillingPreservesMeaning(choose, scoped, n, next, a, b, fuel);
    case IfThenElse(c, t, e) => IfPreserved(choose, s, n, next, a, b, fuel);
    case ForRange(v, start, end, body) => RangePreserved(choose, s, n, next, a, b, fuel);
    case While(c, body) => WhilePreserved(choose, s, n, next, a, b, fuel);
    case Print(e) =>
      var x := SpillExpr(choose, e, next);
      SpilledValue(choose, e, n, next, a, b);
      ExecAfter(x.stmts, Print(x.expr), b, fuel, next, x.next);
    case CallStmt(_, _, _) => CallPreserved(choose, s, n, next, a, b, fuel);
  }

  lemma AssignPreserved(choose: Choice, s: Stmt, n: Var, next: Var, a: State, b: State, fuel: nat)
    requires s.AssignStmt? && AllBelow(s, n) && n <= next && Agree(a.store, b.store, Old(n)) && a.out == b.out
    ensures SameEnd(Exec(s, a, fuel), Exec(Rewritten(choose, s, next).0, b, fuel), Old(n))
  {
    hide SpillExpr, Temps;
    var x := SpillExpr(choose, s.value, next);
    SpilledValue(choose, s.value, n, next, a, b);
    ExecAfter(x.stmts, AssignStmt(s.v, x.expr, s.add), b, fuel, next, x.next);
    assert s.v in Old(n);
  }

  lemma CallPreserved(choose: Choice, s: Stmt, n: Var, next: Var, a: State, b: State, fuel: nat)
    requires s.CallStmt? && AllBelow(s, n) && n <= next && Agree(a.store, b.store, Old(n)) && a.out == b.out
    ensures SameEnd(Exec(s, a, fuel), Exec(Rewritten(choose, s, next).0, b, fuel), Old(n))
  {
    hide SpillAll, Temps, Bind, Below;
    var x := SpillAll(choose, s.actuals, next);
    SpillAllWorks(choose, s.actuals, n, next, b.store);
    ExecAfter(x.0, CallStmt(s.results, s.callee, x.1), b, fuel, next, x.2);
    forall i | 0 <= i < |s.actuals| ensures Eval(s.actuals[i], a.store) == Eval(s.actuals[i], b.store) {
      EvalOld(s.actuals[i], a.store, b.store, n);
    }
    var t := RunTemps(x.0, b.store);
    assert EvalAll(s.actuals, a.store) == EvalAll(x.1, t);
    OldKept(x.0, a.store, b.store, n, next, x.2);
    var r := Exec(s.callee.body, State(Bind(map[], s.callee.args, EvalAll(s.actuals, a.store)), a.out), fuel);
    if r.Some? { BindSame(a.store, t, s.results, GetAll(r.value.store, s.callee.results), Old(n)); }
  }

  lemma {:induction false} IfPreserved(choose: Choice, s: Stmt, n: Var, next: Var, a: State, b: State, fuel: nat)
    requires s.IfThenElse? && AllBelow(s, n) && n <= next && Agree(a.store, b.store, Old(n)) && a.out == b.out
    ensures SameEnd(Exec(s, a, fuel), Exec(Rewritten(choose, s, next).0, b, fuel), Old(n))
    decreases fuel, s, 0
  {
    hide SpillExpr, Temps, Agree;
    var x := SpillExpr(choose, s.condition, next);
    SpilledValue(choose, s.condition, n, next, a, b);
    var (t, m) := Rewritten(choose, s.thenBody, x.next);
    NextGrows(choose, s.thenBody, n, x.next);
    var (e, k) := Rewritten(choose, s.elseBody, m);
    ExecAfter(x.stmts, IfThenElse(x.expr, t, e), b, fuel, next, x.next);
    var b' := State(RunTemps(x.stmts, b.store), b.out);
    SpillingPreservesMeaning(choose, s.thenBody, n, x.next, a, b', fuel);
    SpillingPreservesMeaning(choose, s.elseBody, n, m, a, b', fuel);
  }

  lemma {:induction false} RangePreserved(choose: Choice, s: Stmt, n: Var, next: Var, a: State, b: State, fuel: nat)
    requires s.ForRange? && AllBelow(s, n) && n <= next && Agree(a.store, b.store, Old(n)) && a.out == b.out
    ensures SameEnd(Exec(s, a, fuel), Exec(Rewritten(choose, s, next).0, b, fuel), Old(n))
    decreases fuel, s, 0
  {
    hide SpillExpr, Temps, Agree;
    var x := SpillExpr(choose, s.start, next);
    SpilledValue(choose, s.start, n, next, a, b);
    var y := SpillExpr(choose, s.end, x.next);
    var mid := State(RunTemps(x.stmts, b.store), b.out);
    SpilledValue(choose, s.end, n, x.next, a, mid);
    SpillExprWorks(choose, s.start, next);
    SpilledBounds(x, y, s.start, next, b.store);
    var (body, m) := Rewritten(choose, s.body, y.next);
    ExecAfter(x.stmts + y.stmts, ForRange(s.v, x.expr, y.expr, body), b, fuel, next, y.next);
    IterationsPreserved(choose, s.v, Eval(s.start, a.store), Eval(s.end, a.store), s.body, n, y.next, a,
                        State(RunTemps(x.stmts + y.stmts, b.store), b.out), fuel);
  }

  lemma SpilledBounds(x: Spilled, y: Spilled, e: Expr, next: Var, s: Store)
    requires Spills(x, e, next) && x.next <= y.next && Temps(y.stmts, x.next, y.next)
    ensures Temps(x.stmts + y.stmts, next, y.next) && Temps(x.stmts, next, x.next)
    ensures RunTemps(x.stmts + y.stmts, s) == RunTemps(y.stmts, RunTemps(x.stmts, s))
    ensures Eval(x.expr, RunTemps(x.stmts + y.stmts, s)) == Eval(e, s)
  {
    LaterSpills(x, e, next, y.stmts, y.next, s);
    RunConcat(x.stmts, y.stmts, s);
  }

  lemma {:induction false} IterationsPreserved(choose: Choice, v: Var, i: int, hi: int, body: Stmt, n: Var, next: Var,
                                               a: State, b: State, fuel: nat)
    requires v < n && AllBelow(body, n) && n <= next && Agree(a.store, b.store, Old(n)) && a.out == b.out
    ensures SameEnd(ExecRange(v, i, hi, body, a, fuel), ExecRange(v, i, hi, Rewritten(choose, body, next).0, b, fuel),
            Old(n))
    decreases fuel, body, 2, hi - i
  {
    if i < hi {
      var a', b' := State(a.store[v := i], a.out), State(b.store[v := i], b.out);
      SpillingPreservesMeaning(choose, body, n, next, a', b', fuel);
      var ra, rb := Exec(body, a', fuel), Exec(Rewritten(choose, body, next).0, b', fuel);
      if ra.Some? { IterationsPreserved(choose, v, i + 1, hi, body, n, next, ra.value, rb.value, fuel); }
    }
  }

  lemma {:induction false} WhilePreserved(choose: Choice, s: Stmt, n: Var, next: Var, a: State, b: State, fuel: nat)
    requires s.While? && AllBelow(s, n) && n <= next && Agree(a.store, b.store, Old(n)) && a.out == b.out
    ensures SameEnd(Exec(s, a, fuel), Exec(Rewritten(choose, s, next).0, b, fuel), Old(n))
    decreases fuel, s, 0
  {
    hide SpillExpr, Temps, Agree, MakeBlock;
    var x := SpillExpr(choose, s.condition, next);
    SpilledValue(choose, s.condition, n, next, a, b);
    var loop := RewrittenLoop(choose, s, next);
    ExecAfter(x.stmts, loop, b, fuel, next, x.next);
    LoopPreserved(choose, s, n, next, a, b.store, fuel);
  }

  /** The loop without the spilled statements before it. */
  function RewrittenLoop(choose: Choice, s: Stmt, next: Var): (loop: Stmt)
    requires s.While?
  {
    var x := SpillExpr(choose, s.condition, next);
    var b := Rewritten(choose, s.body, x.next).0;
    While(x.expr, if x.stmts == [] then b else Block(b, MakeBlock(x.stmts)))
  }

  /** At its head the spilled condition has just been computed from some store that agrees. */
  lemma {:induction false} LoopPreserved(choose: Choice, s: Stmt, n: Var, next: Var, a: State, base: Store, fuel: nat)
    requires s.While? && AllBelow(s, n) && n <= next && Agree(a.store, base, Old(n))
    requires Temps(SpillExpr(choose, s.condition, next).stmts, next, SpillExpr(choose, s.condition, next).next)
    ensures var b := State(RunTemps(SpillExpr(choose, s.condition, next).stmts, base), a.out);
            SameEnd(Exec(s, a, fuel), Exec(RewrittenLoop(choose, s, next), b, fuel), Old(n))
    decreases fuel, s.body, 2
  {
    hide SpillExpr, Agree, MakeBlock;
    var x := SpillExpr(choose, s.condition, next);
    var b := State(RunTemps(x.stmts, base), a.out);
    SpilledValue(choose, s.condition, n, next, a, State(base, a.out));
    if Eval(s.condition, a.store) != 0 && fuel > 0 {
      var body := Rewritten(choose, s.body, x.next).0;
      SpillingPreservesMeaning(choose, s.body, n, x.next, a, b, fuel);
      var ra, rb := Exec(s.body, a, fuel), Exec(body, b, fuel);
      if ra.Some? {
        ExecTemps(x.stmts, rb.value, fuel, next, x.next);
        NoTemps(rb.value.store);
        LoopPreserved(choose, s, n, next, ra.value, rb.value.store, fuel - 1);
      }
    }
  }

  lemma NoTemps(s: Store)
    ensures RunTemps([], s) == s
  {
  }

  /** Stated for whole runs: every end of the program is an end of the rewritten program, and the
      other way around. */
  lemma SpilledProgram(choose: Choice, s: Stmt, n: Var, start: State, end: State)
    requires AllBelow(s, n)
    ensures Ends(s, start, end) ==>
              exists e: State :: Ends(Rewritten(choose, s, n).0, start, e) && e.out == end.out &&
                Agree(end.store, e.store, Old(n))
    ensures Ends(Rewritten(choose, s, n).0, start, end) ==>
              exists e: State :: Ends(s, start, e) && e.out == end.out && Agree(e.store, end.store, Old(n))
  {
    if Ends(s, start, end) {
      var fuel: nat :| Exec(s, start, fuel) == Some(end);
      SpillingPreservesMeaning(choose, s, n, n, start, start, fuel);
      assert Ends(Rewritten(choose, s, n).0, start, Exec(Rewritten(choose, s, n).0, start, fuel).value);
    }
    if Ends(Rewritten(choose, s, n).0, start, end) {
      var fuel: nat :| Exec(Rewritten(choose, s, n).0, start, fuel) == Some(end);
      SpillingPreservesMeaning(choose, s, n, n, start, start, fuel);
      assert Ends(s, start, Exec(s, start, fuel).value);
    }
  }

  // ---------- The rewriter ----------

  lemma NotTemp(e: Expr, n: Var, t: Var)
    requires Below(e, n) && n <= t
    ensures e != VarExpr(t)
  {
    assert e == VarExpr(t) ==> t in Reads(e);
  }

  /** An expression over old variables that comes back unchanged has spilled nothing. */
  lemma {:induction false} UnchangedSpillsNothing(choose: Choice, e: Expr, next: Var)
    requires Below(e, next) && SpillExpr(choose, e, next).expr == e
    ensures SpillExpr(choose, e, next).stmts == []
  {
    match e
    case Binary(op, a, b) =>
      assert Reads(e) == Reads(a) + Reads(b);
      SpillExprWorks(choose, a, next);
      var x := SpillExpr(choose, a, next);
      BelowMore(b, next, x.next);
      SpillExprWorks(choose, b, x.next);
      var y := SpillExpr(choose, b, x.next);
      var (left, right) := choose(op, x.expr, y.expr);
      var z := ToTemp(left, x.expr, y.next);
      NotTemp(a, next, y.next);
      NotTemp(b, next, z.next);
      UnchangedSpillsNothing(choose, a, next);
      UnchangedSpillsNothing(choose, b, x.next);
    case _ =>
  }

  lemma AllBelowMore(s: Stmt, n: Var, m: Var)
    requires AllBelow(s, n) && n <= m
    ensures AllBelow(s, m)
  {
  }

  lemma SpillAllNext(choose: Choice, es: seq<Expr>, i: nat, next: Var)
    requires i < |es|
    ensures SpillAll(choose, [], next) == ([], [], next) && es[..|es|] == es
    ensures var front := SpillAll(choose, es[..i], next);
            var x := SpillExpr(choose, es[i], front.2);
            SpillAll(choose, es[..i + 1], next) == (front.0 + x.stmts, front.1 + [x.expr], x.next)
  {
    assert es[..i + 1][..i] == es[..i];
  }

  lemma SpillBinaryIs(choose: Choice, op: Op, a: Expr, b: Expr, next: Var)
    ensures var x := SpillExpr(choose, a, next);
            var y := SpillExpr(choose, b, x.next);
            var z := ToTemp(choose(op, x.expr, y.expr).0, x.expr, y.next);
            var w := ToTemp(choose(op, x.expr, y.expr).1, y.expr, z.next);
            SpillExpr(choose, Binary(op, a, b), next) ==
            Spilled(x.stmts + y.stmts + z.stmts + w.stmts, Binary(op, z.expr, w.expr), w.next)
  {
  }

  lemma SpillsNothing(choose: Choice, e: Expr, next: Var)
    requires !e.Binary?
    ensures SpillExpr(choose, e, next) == Spilled([], e, next)
  {
  }

  lemma Regroup<T>(s: seq<T>, a: seq<T>, b: seq<T>, c: seq<T>, d: seq<T>)
    ensures s + a + b + c + d == s + (a + b + c + d) && s + [] == s && [] + s == s
  {
  }

  class IRRewriter {
    const choose: Choice
    /** Statements to go before the statement that the visited expression is part of. */
    var spilledStmts: seq<Stmt>
    /** The temporary that the name generator gives out next. */
    var nextTemp: Var

    constructor (choose: Choice, nextTemp: Var)
      ensures this.choose == choose && this.nextTemp == nextTemp && spilledStmts == []
    {
      this.choose, this.nextTemp := choose, nextTemp;
      spilledStmts := [];
    }

    /** getSpilledStmts: hands out what has been spilled and forgets it. */
    method GetSpilledStmts() returns (spilled: Option<Stmt>)
      modifies this`spilledStmts
      ensures spilledStmts == []
      ensures spilled == if old(spilledStmts) == [] then None else Some(MakeBlock(old(spilledStmts)))
    {
      spilled := None;
      if |spilledStmts| > 0 {
        spilled := Some(MakeBlock(spilledStmts));
        spilledStmts := [];
      }
    }

    /** The client's spill: an assignment to a new temporary that stands for the expression. */
    method SpillToTemp(a: Expr) returns (r: Expr)
      modifies this`spilledStmts, this`nextTemp
      ensures var x := ToTemp(true, a, old(nextTemp));
              r == x.expr && spilledStmts == old(spilledStmts) + x.stmts && nextTemp == x.next
    {
      r := VarExpr(nextTemp);
      spilledStmts := spilledStmts + [AssignStmt(nextTemp, a, false)];
      nextTemp := nextTemp + 1;
    }

    method RewriteExpr(e: Expr) returns (r: Expr)
      modifies this`spilledStmts, this`nextTemp
      ensures var x := SpillExpr(choose, e, old(nextTemp));
              r == x.expr && spilledStmts == old(spilledStmts) + x.stmts && nextTemp == x.next
      decreases e
    {
      hide SpillExpr;
      if !e.Binary? { SpillsNothing(choose, e, nextTemp); }
      match e
      case Binary(op, a, b) =>
        ghost var n := nextTemp;
        var x := RewriteExpr(a);
        ghost var m := nextTemp;
        var y := RewriteExpr(b);
        ghost var sx, sy := SpillExpr(choose, a, n), SpillExpr(choose, b, m);
        var (left, right) := choose(op, x, y);
        ghost var z := ToTemp(left, x, nextTemp);
        if left {
          x := SpillToTemp(x);
        }
        ghost var w := ToTemp(right, y, nextTemp);
        if right {
          y := SpillToTemp(y);
        }
        SpillBinaryIs(choose, op, a, b, n);
        Regroup(old(spilledStmts), sx.stmts, sy.stmts, z.stmts, w.stmts);
        r := Binary(op, x, y);
      case _ => r := e;
    }

    /** rewrite(Stmt): what is still spilled after the visit goes before the statement. */
    method RewriteStmt(s: Stmt) returns (r: Stmt)
      requires spilledStmts == [] && AllBelow(s, nextTemp)
      modifies this`spilledStmts, this`nextTemp
      ensures spilledStmts == [] && (r, nextTemp) == Rewritten(choose, s, old(nextTemp))
      decreases s, 2
    {
      hide Rewritten, AllBelow;
      r := Visit(s);
      var spilled := GetSpilledStmts();
      if spilled.Some? {
        r := Block(spilled.value, r);
      }
    }

    method Visit(s: Stmt) returns (r: Stmt)
      requires spilledStmts == [] && AllBelow(s, nextTemp)
      modifies this`spilledStmts, this`nextTemp
      ensures (After(spilledStmts, r), nextTemp) == Rewritten(choose, s, old(nextTemp))
      decreases s, 1
    {
      hide SpillExpr, SpillAll, Below;
      match s
      case AssignStmt(v, e, add) =>
        Regroup(SpillExpr(choose, e, nextTemp).stmts, [], [], [], []);
        var value := RewriteExpr(e);
        r := if value == e then s else AssignStmt(v, value, add);
      case Block(first, rest) =>
        NextGrows(choose, first, nextTemp, nextTemp);
        AllBelowMore(rest, nextTemp, Rewritten(choose, first, nextTemp).1);
        var f := RewriteStmt(first);
        var b := RewriteStmt(rest);
        r := if f == first && b == rest then s else Block(f, b);
      case Scope(scoped) =>
        var b := RewriteStmt(scoped);
        r := if b == scoped then s else Scope(b);
      case IfThenElse(_, _, _) => r := VisitIf(s);
      case ForRange(_, _, _, _) => r := VisitForRange(s);
      case While(_, _) => r := VisitWhile(s);
      case Print(e) =>
        Regroup(SpillExpr(choose, e, nextTemp).stmts, [], [], [], []);
        var value := RewriteExpr(e);
        r := if value == e then s else Print(value);
      case CallStmt(results, callee, actuals) =>
        var values := RewriteAll(actuals);
        r := if values == actuals then s else CallStmt(results, callee, values);
      case _ => r := s;
    }

    method RewriteAll(es: seq<Expr>) returns (rs: seq<Expr>)
      requires spilledStmts == []
      modifies this`spilledStmts, this`nextTemp
      ensures (spilledStmts, rs, nextTemp) == SpillAll(choose, es, old(nextTemp))
    {
      hide SpillExpr, SpillAll;
      rs := [];
      assert es[..0] == [];
      NothingToSpill(choose, nextTemp);
      for i := 0 to |es|
        invariant (spilledStmts, rs, nextTemp) == SpillAll(choose, es[..i], old(nextTemp))
      {
        SpillAllNext(choose, es, i, old(nextTemp));
        var x := RewriteExpr(es[i]);
        rs := rs + [x];
      }
      assert es[..|es|] == es;
    }

    /** visit(IfThenElse) */
    method VisitIf(s: Stmt) returns (r: Stmt)
      requires spilledStmts == [] && s.IfThenElse? && AllBelow(s, nextTemp)
      modifies this`spilledStmts, this`nextTemp
      ensures spilledStmts == [] && (r, nextTemp) == Rewritten(choose, s, old(nextTemp))
      decreases s, 0
    {
      hide SpillExpr, Below;
      ghost var n := nextTemp;
      ghost var x := SpillExpr(choose, s.condition, n);
      SpillGrows(choose, s.condition, n);
      Regroup(SpillExpr(choose, s.condition, n).stmts, [], [], [], []);
      var condition := RewriteExpr(s.condition);
      var spilledCond := GetSpilledStmts();
      AllBelowMore(s.thenBody, n, nextTemp);
      NextGrows(choose, s.thenBody, n, nextTemp);
      AllBelowMore(s.elseBody, n, Rewritten(choose, s.thenBody, nextTemp).1);
      var thenBody := RewriteStmt(s.thenBody);
      var elseBody := RewriteStmt(s.elseBody);
      if condition == s.condition && thenBody == s.thenBody && elseBody == s.elseBody {
        UnchangedSpillsNothing(choose, s.condition, n);
        r := s;
      } else {
        r := IfThenElse(condition, thenBody, elseBody);
        if spilledCond.Some? {
          r := Block(spilledCond.value, r);
        }
      }
    }

    /** visit(ForRange) */
    method VisitForRange(s: Stmt) returns (r: Stmt)
      requires spilledStmts == [] && s.ForRange? && AllBelow(s, nextTemp)
      modifies this`spilledStmts, this`nextTemp
      ensures spilledStmts == [] && (r, nextTemp) == Rewritten(choose, s, old(nextTemp))
      decreases s, 0
    {
      hide SpillExpr, Below;
      ghost var n := nextTemp;
      SpillGrows(choose, s.start, n);
      Regroup(SpillExpr(choose, s.start, n).stmts, [], [], [], []);
      var start := RewriteExpr(s.start);
      ghost var m := nextTemp;
      BelowMore(s.end, n, m);
      SpillGrows(choose, s.end, m);
      var end := RewriteExpr(s.end);
      var spilledBounds := GetSpilledStmts();
      AllBelowMore(s.body, n, nextTemp);
      var body := RewriteStmt(s.body);
      if body == s.body && start == s.start && end == s.end {
        UnchangedSpillsNothing(choose, s.start, n);
        UnchangedSpillsNothing(choose, s.end, m);
        r := s;
      } else {
        r := ForRange(s.v, start, end, body);
        if spilledBounds.Some? {
          r := Block(spilledBounds.value, r);
        }
      }
    }

    /** visit(While) */
    method VisitWhile(s: Stmt) returns (r: Stmt)
      requires spilledStmts == [] && s.While? && AllBelow(s, nextTemp)
      modifies this`spilledStmts, this`nextTemp
      ensures spilledStmts == [] && (r, nextTemp) == Rewritten(choose, s, old(nextTemp))
      decreases s, 0
    {
      hide SpillExpr, Below;
      ghost var n := nextTemp;
      SpillGrows(choose, s.condition, n);
      Regroup(SpillExpr(choose, s.condition, n).stmts, [], [], [], []);
      var condition := RewriteExpr(s.condition);
      var spilledCond := GetSpilledStmts();
      AllBelowMore(s.body, n, nextTemp);
      var body := RewriteStmt(s.body);
      if condition == s.condition && body == s.body {
        UnchangedSpillsNothing(choose, s.condition, n);
        r := s;
      } else {
        if spilledCond.Some? {
          body := Block(body, spilledCond.value);
        }
        r := While(condition, body);
        if spilledCond.Some? {
          r := Block(spilledCond.value, r);
        }
      }
    }
  }

  lemma NothingToSpill(choose: Choice, next: Var)
    ensures SpillAll(choose, [], next) == ([], [], next)
  {
  }

  lemma SpillGrows(choose: Choice, e: Expr, next: Var)
    requires Below(e, next)
    ensures next <= SpillExpr(choose, e, next).next
  {
    SpillExprWorks(choose, e, next);
  }
}
