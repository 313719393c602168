/** Inlining of calls preserves the meaning of calls by value. */
module InlineCalls {
  import opened Wrappers
  import opened IR
  import opened Inline

  // ---------- Replacing an argument ----------

  /** Every variable except x. */
  ghost function Except(xs: set<Var>): (vars: iset<Var>) {
    iset v: Var | v !in xs
  }

  /** x has the value of e, everything else is equal. */
  ghost predicate Stands(a: Store, b: Store, x: Var, e: Expr) {
    Agree(a, b, Except({x})) && Get(a, x) == Eval(e, b)
  }

  ghost predicate SameButStands(a: Option<State>, b: Option<State>, x: Var, e: Expr) {
    a.Some? == b.Some? && (a.Some? ==> a.value.out == b.value.out && Stands(a.value.store, b.value.store, x, e))
  }

  lemma {:induction false} EvalReplaced(e: Expr, x: Var, final: Expr, a: Store, b: Store)
    requires Stands(a, b, x, final)
    ensures Eval(ReplaceExprIn(e, x, final), b) == Eval(e, a)
  {
    match e
    case VarExpr(v) => assert v != x ==> v in Except({x});
    case Binary(_, y, z) => EvalReplaced(y, x, final, a, b); EvalReplaced(z, x, final, a, b);
    case _ =>
  }

  lemma {:induction false} EvalAllReplaced(es: seq<Expr>, x: Var, final: Expr, a: Store, b: Store)
    requires Stands(a, b, x, final)
    ensures EvalAll(ReplaceExprInAll(es, x, final), b) == EvalAll(es, a)
  {
    if es != [] {
      EvalReplaced(es[0], x, final, a, b);
      EvalAllReplaced(es[1..], x, final, a, b);
      assert ReplaceExprInAll(es, x, final)[1..] == ReplaceExprInAll(es[1..], x, final);
    }
  }

  /** Writing another variable that the expression does not read. */
  lemma StandsAfterWrite(a: Store, b: Store, x: Var, e: Expr, v: Var, k: int)
    requires Stands(a, b, x, e) && v != x && v !in Reads(e)
    ensures Stands(a[v := k], b[v := k], x, e)
  {
    var others := Except({v});
    assert Agree(b, b[v := k], others);
    EvalAgrees(e, b, b[v := k], others);
  }

  lemma {:induction false} StandsAfterBind(a: Store, b: Store, x: Var, e: Expr, vs: seq<Var>, ks: seq<int>)
    requires Stands(a, b, x, e) && x !in vs && forall v :: v in vs ==> v !in Reads(e)
    ensures Stands(Bind(a, vs, ks), Bind(b, vs, ks), x, e)
    decreases |vs|
  {
    if vs != [] && ks != [] {
      StandsAfterWrite(a, b, x, e, vs[0], ks[0]);
      StandsAfterBind(a[vs[0] := ks[0]], b[vs[0] := ks[0]], x, e, vs[1..], ks[1..]);
    }
  }

  /** An argument that is not written can be replaced by an expression whose variables are not written. */
  lemma {:induction false} ArgumentReplaced(s: Stmt, x: Var, e: Expr, a: State, b: State, fuel: nat)
    requires x !in Writes(s) && Reads(e) !! Writes(s) && Stands(a.store, b.store, x, e) && a.out == b.out
    ensures SameButStands(Exec(s, a, fuel), Exec(ReplaceVarByExpr(s, x, e), b, fuel), x, e)
    decreases fuel, s, 2
  {
    hide Stands, Reads, Get, ReplaceExprIn, ReplaceExprInAll, EvalAll, Bind, GetAll;
    match s
    case AssignStmt(v, value, add) =>
      EvalReplaced(value, x, e, a.store, b.store);
      StandsAt(a.store, b.store, x, e, v);
      StandsAfterWrite(a.store, b.store, x, e, v, (if add then Get(a.store, v) else 0) + Eval(value, a.store));
    case Block(first, rest) =>
      ArgumentReplaced(first, x, e, a, b, fuel);
      var ra, rb := Exec(first, a, fuel), Exec(ReplaceVarByExpr(first, x, e), b, fuel);
      if ra.Some? { ArgumentReplaced(rest, x, e, ra.value, rb.value, fuel); }
    case Scope(scoped) => ArgumentReplaced(scoped, x, e, a, b, fuel);
    case IfThenElse(c, t, f) =>
      EvalReplaced(c, x, e, a.store, b.store);
      ArgumentReplaced(t, x, e, a, b, fuel);
      ArgumentReplaced(f, x, e, a, b, fuel);
    case ForRange(v, start, end, body) =>
      EvalReplaced(start, x, e, a.store, b.store);
      EvalReplaced(end, x, e, a.store, b.store);
      RangeReplaced(v, Eval(start, a.store), Eval(end, a.store), body, x, e, a, b, fuel);
    case While(_, _) => WhileReplaced(s, x, e, a, b, fuel);
    case Print(value) => EvalReplaced(value, x, e, a.store, b.store);
    case CallStmt(_, _, _) => CallReplaced(s, x, e, a, b, fuel);
    case _ =>
  }

  lemma {:induction false} WhileReplaced(s: Stmt, x: Var, e: Expr, a: State, b: State, fuel: nat)
    requires s.While? && x !in Writes(s) && Reads(e) !! Writes(s) && Stands(a.store, b.store, x, e) && a.out == b.out
    ensures SameButStands(Exec(s, a, fuel), Exec(ReplaceVarByExpr(s, x, e), b, fuel), x, e)
    decreases fuel, s, 1
  {
    hide Stands, Reads, Get, ReplaceExprIn, ReplaceExprInAll, EvalAll, Bind, GetAll;
    EvalReplaced(s.condition, x, e, a.store, b.store);
    if Eval(s.condition, a.store) != 0 && fuel > 0 {
      ArgumentReplaced(s.body, x, e, a, b, fuel);
      var ra, rb := Exec(s.body, a, fuel), Exec(ReplaceVarByExpr(s.body, x, e), b, fuel);
      if ra.Some? { ArgumentReplaced(s, x, e, ra.value, rb.value, fuel - 1); }
    }
  }

  lemma CallReplaced(s: Stmt, x: Var, e: Expr, a: State, b: State, fuel: nat)
    requires s.CallStmt? && x !in Writes(s) && Reads(e) !! Writes(s) && Stands(a.store, b.store, x, e) && a.out == b.out
    ensures SameButStands(Exec(s, a, fuel), Exec(ReplaceVarByExpr(s, x, e), b, fuel), x, e)
  {
    hide Stands;
    EvalAllReplaced(s.actuals, x, e, a.store, b.store);
    TargetsSame(s.results, x, e);
    var r := Exec(s.callee.body, State(Bind(map[], s.callee.args, EvalAll(s.actuals, a.store)), a.out), fuel);
    if r.Some? { StandsAfterBind(a.store, b.store, x, e, s.results, GetAll(r.value.store, s.callee.results)); }
  }

  lemma StandsAt(a: Store, b: Store, x: Var, e: Expr, v: Var)
    requires Stands(a, b, x, e) && v != x
    ensures Get(a, v) == Get(b, v)
  {
    assert v in Except({x});
  }

  lemma {:induction false} TargetsSame(vs: seq<Var>, x: Var, e: Expr)
    requires x !in vs
    ensures TargetAll(vs, x, e) == vs
  {
    if vs != [] { TargetsSame(vs[1..], x, e); }
  }

  lemma {:induction false} RangeReplaced(v: Var, i: int, hi: int, body: Stmt, x: Var, e: Expr, a: State, b: State,
                                         fuel: nat)
    requires x != v && v !in Reads(e) && x !in Writes(body) && Reads(e) !! Writes(body) &&
             Stands(a.store, b.store, x, e) && a.out == b.out
    ensures SameButStands(ExecRange(v, i, hi, body, a, fuel),
            ExecRange(v, i, hi, ReplaceVarByExpr(body, x, e), b, fuel), x, e)
    decreases fuel, body, 3, hi - i
  {
    if i < hi {
      StandsAfterWrite(a.store, b.store, x, e, v, i);
      var a', b' := State(a.store[v := i], a.out), State(b.store[v := i], b.out);
      ArgumentReplaced(body, x, e, a', b', fuel);
      var ra, rb := Exec(body, a', fuel), Exec(ReplaceVarByExpr(body, x, e), b', fuel);
      if ra.Some? { RangeReplaced(v, i + 1, hi, body, x, e, ra.value, rb.value, fuel); }
    }
  }

  // ---------- Replacing a result ----------

  /** Everything but r and t is equal; t has the value of r once it is ready. */
  ghost predicate Moved(a: Store, b: Store, r: Var, t: Var, ready: bool) {
    Agree(a, b, Except({r, t})) && (ready ==> Get(a, r) == Get(b, t))
  }

  ghost predicate SameButMoved(a: Option<State>, b: Option<State>, r: Var, t: Var, ready: bool) {
    a.Some? == b.Some? && (a.Some? ==> a.value.out == b.value.out && Moved(a.value.store, b.value.store, r, t, ready))
  }

  lemma {:induction false} EvalRenamed(e: Expr, r: Var, t: Var, a: Store, b: Store, ready: bool)
    requires Moved(a, b, r, t, ready) && t !in Reads(e) && (r in Reads(e) ==> ready)
    ensures Eval(ReplaceVarIn(e, r, t), b) == Eval(e, a)
  {
    match e
    case VarExpr(v) => assert v != r && v != t ==> v in Except({r, t});
    case Binary(_, y, z) => EvalRenamed(y, r, t, a, b, ready); EvalRenamed(z, r, t, a, b, ready);
    case _ =>
  }

  lemma {:induction false} EvalAllRenamed(es: seq<Expr>, r: Var, t: Var, a: Store, b: Store, ready: bool)
    requires Moved(a, b, r, t, ready) && t !in ReadsAll(es) && (r in ReadsAll(es) ==> ready)
    ensures EvalAll(ReplaceVarInAll(es, r, t), b) == EvalAll(es, a)
  {
    if es != [] {
      EvalRenamed(es[0], r, t, a, b, ready);
      EvalAllRenamed(es[1..], r, t, a, b, ready);
      assert ReplaceVarInAll(es, r, t)[1..] == ReplaceVarInAll(es[1..], r, t);
    }
  }

  lemma MovedAfterWrite(a: Store, b: Store, r: Var, t: Var, ready: bool, v: Var, k: int)
    requires Moved(a, b, r, t, ready) && v != t
    ensures Moved(a[v := k], b[Renamed(v, r, t) := k], r, t, ready || v == r)
  {
  }

  lemma {:induction false} MovedAfterBind(a: Store, b: Store, r: Var, t: Var, ready: bool, vs: seq<Var>, ks: seq<int>)
    requires Moved(a, b, r, t, ready) && t !in vs
    ensures Moved(Bind(a, vs, ks), Bind(b, RenamedAll(vs, r, t), ks), r, t, ready || (|vs| == |ks| && r in vs))
    decreases |vs|
  {
    if vs != [] && ks != [] {
      MovedAfterWrite(a, b, r, t, ready, vs[0], ks[0]);
      assert RenamedAll(vs, r, t)[1..] == RenamedAll(vs[1..], r, t);
      MovedAfterBind(a[vs[0] := ks[0]], b[Renamed(vs[0], r, t) := ks[0]], r, t, ready || vs[0] == r, vs[1..], ks[1..]);
    }
  }

  /** A result that is assigned before it is read can be replaced by a variable that does not occur. */
  lemma {:induction false} ResultReplaced(s: Stmt, r: Var, t: Var, vars: iset<Var>, a: State, b: State, fuel: nat)
    requires Defined(s, vars) && t !in Mentions(s) && Moved(a.store, b.store, r, t, r in vars) && a.out == b.out
    ensures SameButMoved(Exec(s, a, fuel), Exec(ReplaceVar(s, r, t), b, fuel), r, t, r in Assigned(s, vars))
    decreases fuel, s, 2
  {
    hide Moved, Reads, ReadsAll, Get, ReplaceVarIn, EvalAll, Bind, GetAll;
    match s
    case AssignStmt(v, value, add) =>
      EvalRenamed(value, r, t, a.store, b.store, r in vars);
      if add { GetRenamed(v, r, t, a.store, b.store, r in vars); }
      MovedAfterWrite(a.store, b.store, r, t, r in vars, v,
        (if add then Get(a.store, v) else 0) + Eval(value, a.store));
    case Block(first, rest) =>
      ResultReplaced(first, r, t, vars, a, b, fuel);
      var ra, rb := Exec(first, a, fuel), Exec(ReplaceVar(first, r, t), b, fuel);
      if ra.Some? { ResultReplaced(rest, r, t, Assigned(first, vars), ra.value, rb.value, fuel); }
    case Scope(scoped) => ResultReplaced(scoped, r, t, vars, a, b, fuel);
    case IfThenElse(c, x, y) =>
      EvalRenamed(c, r, t, a.store, b.store, r in vars);
      ResultReplaced(x, r, t, vars, a, b, fuel);
      ResultReplaced(y, r, t, vars, a, b, fuel);
      LessAfter(Exec(x, a, fuel), Exec(ReplaceVar(x, r, t), b, fuel), r, t, r in Assigned(x, vars),
        r in Assigned(s, vars));
      LessAfter(Exec(y, a, fuel), Exec(ReplaceVar(y, r, t), b, fuel), r, t, r in Assigned(y, vars),
        r in Assigned(s, vars));
    case ForRange(v, start, end, body) =>
      EvalRenamed(start, r, t, a.store, b.store, r in vars);
      EvalRenamed(end, r, t, a.store, b.store, r in vars);
      RangeRenamed(v, Eval(start, a.store), Eval(end, a.store), body, r, t, vars, a, b, fuel);
    case While(_, _) => WhileRenamed(s, r, t, vars, a, b, fuel);
    case Print(value) => EvalRenamed(value, r, t, a.store, b.store, r in vars);
    case CallStmt(_, _, _) => CallRenamed(s, r, t, vars, a, b, fuel);
    case _ =>
  }

  lemma {:induction false} WhileRenamed(s: Stmt, r: Var, t: Var, vars: iset<Var>, a: State, b: State, fuel: nat)
    requires s.While? && Defined(s, vars) && t !in Mentions(s)
    requires Moved(a.store, b.store, r, t, r in vars) && a.out == b.out
    ensures SameButMoved(Exec(s, a, fuel), Exec(ReplaceVar(s, r, t), b, fuel), r, t, r in Assigned(s, vars))
    decreases fuel, s, 1
  {
    hide Moved, Reads, ReadsAll, Get, ReplaceVarIn, EvalAll, Bind, GetAll;
    EvalRenamed(s.condition, r, t, a.store, b.store, r in vars);
    if Eval(s.condition, a.store) != 0 && fuel > 0 {
      ResultReplaced(s.body, r, t, vars, a, b, fuel);
      AssignedGrows(s.body, vars);
      var ra, rb := Exec(s.body, a, fuel), Exec(ReplaceVar(s.body, r, t), b, fuel);
      LessAfter(ra, rb, r, t, r in Assigned(s.body, vars), r in vars);
      if ra.Some? { ResultReplaced(s, r, t, vars, ra.value, rb.value, fuel - 1); }
    }
  }

  lemma GetRenamed(v: Var, r: Var, t: Var, a: Store, b: Store, ready: bool)
    requires Moved(a, b, r, t, ready) && v != t && (v == r ==> ready)
    ensures Get(b, Renamed(v, r, t)) == Get(a, v)
  {
    EvalRenamed(VarExpr(v), r, t, a, b, ready);
  }

  lemma LessAfter(a: Option<State>, b: Option<State>, r: Var, t: Var, ready: bool, less: bool)
    requires less ==> ready
    ensures SameButMoved(a, b, r, t, ready) ==> SameButMoved(a, b, r, t, less)
  {
  }

  lemma CallRenamed(s: Stmt, r: Var, t: Var, vars: iset<Var>, a: State, b: State, fuel: nat)
    requires s.CallStmt? && Defined(s, vars) && t !in Mentions(s) && Moved(a.store, b.store, r, t, r in vars) &&
             a.out == b.out
    ensures SameButMoved(Exec(s, a, fuel), Exec(ReplaceVar(s, r, t), b, fuel), r, t, r in Assigned(s, vars))
  {
    hide Moved;
    EvalAllRenamed(s.actuals, r, t, a.store, b.store, r in vars);
    var c := Exec(s.callee.body, State(Bind(map[], s.callee.args, EvalAll(s.actuals, a.store)), a.out), fuel);
    if c.Some? {
      var ks := GetAll(c.value.store, s.callee.results);
      MovedAfterBind(a.store, b.store, r, t, r in vars, s.results, ks);
    }
  }

  lemma {:induction false} RangeRenamed(v: Var, i: int, hi: int, body: Stmt, r: Var, t: Var, vars: iset<Var>, a: State,
                                        b: State, fuel: nat)
    requires Defined(body, vars + iset{v}) && v != t && t !in Mentions(body)
    requires Moved(a.store, b.store, r, t, r in vars) && a.out == b.out
    ensures SameButMoved(ExecRange(v, i, hi, body, a, fuel),
                         ExecRange(Renamed(v, r, t), i, hi, ReplaceVar(body, r, t), b, fuel), r, t, r in vars)
    decreases fuel, body, 3, hi - i
  {
    hide Moved;
    if i < hi {
      MovedAfterWrite(a.store, b.store, r, t, r in vars, v, i);
      var a', b' := State(a.store[v := i], a.out), State(b.store[Renamed(v, r, t) := i], b.out);
      ResultReplaced(body, r, t, vars + iset{v}, a', b', fuel);
      AssignedGrows(body, vars + iset{v});
      var ra, rb := Exec(body, a', fuel), Exec(ReplaceVar(body, r, t), b', fuel);
      LessAfter(ra, rb, r, t, r in Assigned(body, vars + iset{v}), r in vars);
      if ra.Some? { RangeRenamed(v, i + 1, hi, body, r, t, vars, ra.value, rb.value, fuel); }
    }
  }

  // ---------- What replacement keeps ----------

  lemma {:induction false} ReadsReplaced(e: Expr, x: Var, f: Expr)
    ensures Reads(ReplaceExprIn(e, x, f)) <= Reads(e) - {x} + Reads(f)
  {
    match e
    case Binary(_, a, b) => ReadsReplaced(a, x, f); ReadsReplaced(b, x, f);
    case _ =>
  }

  lemma {:induction false} ReadsAllReplaced(es: seq<Expr>, x: Var, f: Expr)
    ensures ReadsAll(ReplaceExprInAll(es, x, f)) <= ReadsAll(es) - {x} + Reads(f)
  {
    if es != [] {
      ReadsReplaced(es[0], x, f);
      ReadsAllReplaced(es[1..], x, f);
      assert ReplaceExprInAll(es, x, f)[1..] == ReplaceExprInAll(es[1..], x, f);
    }
  }

  lemma {:induction false} ReadsRenamed(e: Expr, r: Var, t: Var)
    ensures Reads(ReplaceVarIn(e, r, t)) <= Reads(e) - {r} + (if r in Reads(e) then {t} else {})
  {
    match e
    case Binary(_, a, b) => ReadsRenamed(a, r, t); ReadsRenamed(b, r, t);
    case _ =>
  }

  lemma {:induction false} ReadsAllRenamed(es: seq<Expr>, r: Var, t: Var)
    ensures ReadsAll(ReplaceVarInAll(es, r, t)) <= ReadsAll(es) - {r} + {t}
  {
    if es != [] {
      ReadsRenamed(es[0], r, t);
      ReadsAllRenamed(es[1..], r, t);
      assert ReplaceVarInAll(es, r, t)[1..] == ReplaceVarInAll(es[1..], r, t);
    }
  }

  lemma {:induction false} WritesReplaced(s: Stmt, x: Var, e: Expr)
    requires x !in Writes(s)
    ensures Writes(ReplaceVarByExpr(s, x, e)) == Writes(s)
  {
    match s
    case Block(first, rest) => WritesReplaced(first, x, e); WritesReplaced(rest, x, e);
    case Scope(scoped) => WritesReplaced(scoped, x, e);
    case IfThenElse(_, t, f) => WritesReplaced(t, x, e); WritesReplaced(f, x, e);
    case ForRange(_, _, _, body) => WritesReplaced(body, x, e);
    case While(_, body) => WritesReplaced(body, x, e);
    case CallStmt(results, _, _) => TargetsSame(results, x, e);
    case _ =>
  }

  /** Replacing an argument by an expression over assigned variables. */
  lemma {:induction false} DefinedReplaced(s: Stmt, x: Var, e: Expr, vars: iset<Var>)
    requires Defined(s, vars) && x !in Writes(s) && Within(Reads(e), vars)
    ensures Defined(ReplaceVarByExpr(s, x, e), vars) && Assigned(ReplaceVarByExpr(s, x, e), vars) == Assigned(s, vars)
  {
    hide Reads, ReadsAll, ReplaceExprIn, ReplaceExprInAll;
    match s
    case AssignStmt(_, value, _) => ReadsReplaced(value, x, e);
    case Block(first, rest) =>
      DefinedReplaced(first, x, e, vars);
      AssignedGrows(first, vars);
      DefinedReplaced(rest, x, e, Assigned(first, vars));
    case Scope(scoped) => DefinedReplaced(scoped, x, e, vars);
    case IfThenElse(c, t, f) => ReadsReplaced(c, x, e); DefinedReplaced(t, x, e, vars); DefinedReplaced(f, x, e, vars);
    case ForRange(v, start, end, body) =>
      ReadsReplaced(start, x, e);
      ReadsReplaced(end, x, e);
      DefinedReplaced(body, x, e, vars + iset{v});
    case While(c, body) => ReadsReplaced(c, x, e); DefinedReplaced(body, x, e, vars);
    case Print(value) => ReadsReplaced(value, x, e);
    case CallStmt(_, _, _) => CallDefinedReplaced(s, x, e, vars);
    case _ =>
  }

  lemma CallDefinedReplaced(s: Stmt, x: Var, e: Expr, vars: iset<Var>)
    requires s.CallStmt? && Defined(s, vars) && x !in Writes(s) && Within(Reads(e), vars)
    ensures Defined(ReplaceVarByExpr(s, x, e), vars) && Assigned(ReplaceVarByExpr(s, x, e), vars) == Assigned(s, vars)
  {
    hide Reads, ReadsAll, ReplaceExprIn, ReplaceExprInAll, TargetAll;
    ReadsAllReplaced(s.actuals, x, e);
    TargetsSame(s.results, x, e);
  }

  lemma {:induction false} MentionsReplaced(s: Stmt, x: Var, e: Expr)
    requires x !in Writes(s)
    ensures Mentions(ReplaceVarByExpr(s, x, e)) <= Mentions(s) + Reads(e)
  {
    match s
    case AssignStmt(_, value, _) => ReadsReplaced(value, x, e);
    case Block(first, rest) => MentionsReplaced(first, x, e); MentionsReplaced(rest, x, e);
    case Scope(scoped) => MentionsReplaced(scoped, x, e);
    case IfThenElse(c, t, f) => ReadsReplaced(c, x, e); MentionsReplaced(t, x, e); MentionsReplaced(f, x, e);
    case ForRange(_, start, end, body) =>
      ReadsReplaced(start, x, e); ReadsReplaced(end, x, e); MentionsReplaced(body, x, e);
    case While(c, body) => ReadsReplaced(c, x, e); MentionsReplaced(body, x, e);
    case Print(value) => ReadsReplaced(value, x, e);
    case CallStmt(results, _, actuals) => ReadsAllReplaced(actuals, x, e); TargetsSame(results, x, e);
    case _ =>
  }

  lemma {:induction false} MentionsRenamed(s: Stmt, r: Var, t: Var)
    requires r != t
    ensures Mentions(ReplaceVar(s, r, t)) <= Mentions(s) - {r} + {t}
  {
    match s
    case AssignStmt(_, value, _) => ReadsRenamed(value, r, t);
    case Block(first, rest) => MentionsRenamed(first, r, t); MentionsRenamed(rest, r, t);
    case Scope(scoped) => MentionsRenamed(scoped, r, t);
    case IfThenElse(c, x, y) => ReadsRenamed(c, r, t); MentionsRenamed(x, r, t); MentionsRenamed(y, r, t);
    case ForRange(_, start, end, body) =>
      ReadsRenamed(start, r, t); ReadsRenamed(end, r, t); MentionsRenamed(body, r, t);
    case While(c, body) => ReadsRenamed(c, r, t); MentionsRenamed(body, r, t);
    case Print(value) => ReadsRenamed(value, r, t);
    case CallStmt(results, _, actuals) => ReadsAllRenamed(actuals, r, t); RenamedIn(results, r, t);
    case _ =>
  }

  lemma RenamedIn(vs: seq<Var>, r: Var, t: Var)
    requires r != t
    ensures SetOf(RenamedAll(vs, r, t)) <= SetOf(vs) - {r} + {t}
    ensures forall v :: v in vs && v != r ==> v in RenamedAll(vs, r, t)
    ensures r in vs ==> t in RenamedAll(vs, r, t)
  {
    forall v | v in vs ensures Renamed(v, r, t) in RenamedAll(vs, r, t) {
      var i :| 0 <= i < |vs| && vs[i] == v;
      assert RenamedAll(vs, r, t)[i] == Renamed(v, r, t);
    }
  }

  /** Renaming a result: what was read assigned still is, under its new name. */
  lemma {:induction false} DefinedRenamed(s: Stmt, r: Var, t: Var, vars: iset<Var>, more: iset<Var>)
    requires Defined(s, vars) && r != t && t in more && forall v :: v in vars && v != r ==> v in more
    ensures Defined(ReplaceVar(s, r, t), more)
    ensures forall v :: v in Assigned(s, vars) && v != r ==> v in Assigned(ReplaceVar(s, r, t), more)
    ensures t in Assigned(ReplaceVar(s, r, t), more)
  {
    hide Reads, ReadsAll, ReplaceVarIn, ReplaceVarInAll;
    match s
    case AssignStmt(_, value, _) => ReadsRenamed(value, r, t);
    case Block(first, rest) =>
      DefinedRenamed(first, r, t, vars, more);
      DefinedRenamed(rest, r, t, Assigned(first, vars), Assigned(ReplaceVar(first, r, t), more));
    case Scope(scoped) => DefinedRenamed(scoped, r, t, vars, more);
    case IfThenElse(c, x, y) =>
      ReadsRenamed(c, r, t); DefinedRenamed(x, r, t, vars, more); DefinedRenamed(y, r, t, vars, more);
    case ForRange(v, start, end, body) =>
      ReadsRenamed(start, r, t);
      ReadsRenamed(end, r, t);
      DefinedRenamed(body, r, t, vars + iset{v}, more + iset{Renamed(v, r, t)});
    case While(c, body) => ReadsRenamed(c, r, t); DefinedRenamed(body, r, t, vars, more);
    case Print(value) => ReadsRenamed(value, r, t);
    case CallStmt(_, _, _) => CallDefinedRenamed(s, r, t, vars, more);
    case _ =>
  }

  lemma CallDefinedRenamed(s: Stmt, r: Var, t: Var, vars: iset<Var>, more: iset<Var>)
    requires s.CallStmt? && Defined(s, vars) && r != t && t in more && forall v :: v in vars && v != r ==> v in more
    ensures Defined(ReplaceVar(s, r, t), more)
    ensures forall v :: v in Assigned(s, vars) && v != r ==> v in Assigned(ReplaceVar(s, r, t), more)
    ensures t in Assigned(ReplaceVar(s, r, t), more)
  {
    hide Reads, ReadsAll, ReplaceVarIn, ReplaceVarInAll;
    ReadsAllRenamed(s.actuals, r, t);
    RenamedIn(s.results, r, t);
  }
}
