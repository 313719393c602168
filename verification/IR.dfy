/** A statement language of the compiler and its meaning. */
module IR {
  import opened Wrappers

  type Var = nat

  datatype Op = Add | Sub | Mul | Lt | Eq

  datatype Expr =
    | Literal(val: int)
    | VarExpr(v: Var)
    | Binary(op: Op, a: Expr, b: Expr)

  datatype Func = Func(args: seq<Var>, results: seq<Var>, body: Stmt)

  /** `add` distinguishes `+=` from `=`. */
  datatype Stmt =
    | Pass
    | VarDecl(v: Var)
    | AssignStmt(v: Var, value: Expr, add: bool)
    | Block(first: Stmt, rest: Stmt)
    | Scope(scoped: Stmt)
    | IfThenElse(condition: Expr, thenBody: Stmt, elseBody: Stmt)
    | ForRange(v: Var, start: Expr, end: Expr, body: Stmt)
    | While(condition: Expr, body: Stmt)
    | Print(expr: Expr)
    | CallStmt(results: seq<Var>, callee: Func, actuals: seq<Expr>)

  type Store = map<Var, int>

  /** Variables and what has been printed. */
  datatype State = State(store: Store, out: seq<int>)

  function Get(s: Store, v: Var): (x: int)
  {
    if v in s then s[v] else 0
  }

  function Apply(op: Op, x: int, y: int): (z: int)
  {
    match op
    case Add => x + y
    case Sub => x - y
    case Mul => x * y
    case Lt => if x < y then 1 else 0
    case Eq => if x == y then 1 else 0
  }

  function Eval(e: Expr, s: Store): (x: int)
  {
    match e
    case Literal(x) => x
    case VarExpr(v) => Get(s, v)
    case Binary(op, a, b) => Apply(op, Eval(a, s), Eval(b, s))
  }

  function EvalAll(es: seq<Expr>, s: Store): (xs: seq<int>)
    ensures |xs| == |es| && forall i :: 0 <= i < |es| ==> xs[i] == Eval(es[i], s)
  {
    if es == [] then [] else [Eval(es[0], s)] + EvalAll(es[1..], s)
  }

  /** Variables take values, as many as there are of both. */
  function Bind(s: Store, vs: seq<Var>, xs: seq<int>): (r: Store)
    decreases |vs|
  {
    if vs == [] || xs == [] then s else Bind(s[vs[0] := xs[0]], vs[1..], xs[1..])
  }

  function GetAll(s: Store, vs: seq<Var>): (xs: seq<int>)
    ensures |xs| == |vs| && forall i :: 0 <= i < |vs| ==> xs[i] == Get(s, vs[i])
  {
    if vs == [] then [] else [Get(s, vs[0])] + GetAll(s, vs[1..])
  }

  /** The state in which a statement ends, None if some while loop needs more than `fuel` iterations
      at a time.  Functions are closed: they see their arguments only. */
  function Exec(s: Stmt, st: State, fuel: nat): (r: Option<State>)
    decreases fuel, s, 0
  {
    match s
    case Pass => Some(st)
    case VarDecl(_) => Some(st)
    case AssignStmt(v, e, add) =>
      Some(State(st.store[v := (if add then Get(st.store, v) else 0) + Eval(e, st.store)], st.out))
    case Block(first, rest) =>
      var r := Exec(first, st, fuel);
      if r.None? then None else Exec(rest, r.value, fuel)
    case Scope(scoped) => Exec(scoped, st, fuel)
    case IfThenElse(c, t, e) => if Eval(c, st.store) != 0 then Exec(t, st, fuel) else Exec(e, st, fuel)
    case ForRange(v, start, end, body) => ExecRange(v, Eval(start, st.store), Eval(end, st.store), body, st, fuel)
    case While(c, body) =>
      if Eval(c, st.store) == 0 then Some(st)
      else if fuel == 0 then None
      else
        var r := Exec(body, st, fuel);
        if r.None? then None else Exec(s, r.value, fuel - 1)
    case Print(e) => Some(State(st.store, st.out + [Eval(e, st.store)]))
    case CallStmt(results, callee, actuals) =>
      var r := Exec(callee.body, State(Bind(map[], callee.args, EvalAll(actuals, st.store)), st.out), fuel);
      if r.None? then None
      else Some(State(Bind(st.store, results, GetAll(r.value.store, callee.results)), r.value.out))
  }

  /** The iterations from i on; the bounds have been evaluated. */
  function ExecRange(v: Var, i: int, hi: int, body: Stmt, st: State, fuel: nat): (r: Option<State>)
    decreases fuel, body, 1, hi - i
  {
    if i >= hi then Some(st) else
      var r := Exec(body, State(st.store[v := i], st.out), fuel);
      if r.None? then None else ExecRange(v, i + 1, hi, body, r.value, fuel)
  }

  /** The statement ends in this state. */
  ghost predicate Ends(s: Stmt, st: State, end: State) {
    exists fuel: nat :: Exec(s, st, fuel) == Some(end)
  }

  /** More fuel does not change a result. */
  lemma {:induction false} MoreFuel(s: Stmt, st: State, fuel: nat, more: nat)
    requires Exec(s, st, fuel).Some? && fuel <= more
    ensures Exec(s, st, more) == Exec(s, st, fuel)
    decreases fuel, s, 0
  {
    match s
    case Block(first, rest) =>
      MoreFuel(first, st, fuel, more);
      MoreFuel(rest, Exec(first, st, fuel).value, fuel, more);
    case Scope(scoped) => MoreFuel(scoped, st, fuel, more);
    case IfThenElse(c, t, e) =>
      if Eval(c, st.store) != 0 { MoreFuel(t, st, fuel, more); } else { MoreFuel(e, st, fuel, more); }
    case ForRange(v, start, end, body) =>
      MoreFuelRange(v, Eval(start, st.store), Eval(end, st.store), body, st, fuel, more);
    case While(c, body) =>
      if Eval(c, st.store) != 0 {
        MoreFuel(body, st, fuel, more);
        MoreFuel(s, Exec(body, st, fuel).value, fuel - 1, more - 1);
      }
    case CallStmt(results, callee, actuals) =>
      MoreFuel(callee.body, State(Bind(map[], callee.args, EvalAll(actuals, st.store)), st.out), fuel, more);
    case _ =>
  }

  lemma {:induction false} MoreFuelRange(v: Var, i: int, hi: int, body: Stmt, st: State, fuel: nat, more: nat)
    requires ExecRange(v, i, hi, body, st, fuel).Some? && fuel <= more
    ensures ExecRange(v, i, hi, body, st, more) == ExecRange(v, i, hi, body, st, fuel)
    decreases fuel, body, 1, hi - i
  {
    if i < hi {
      MoreFuel(body, State(st.store[v := i], st.out), fuel, more);
      MoreFuelRange(v, i + 1, hi, body, Exec(body, State(st.store[v := i], st.out), fuel).value, fuel, more);
    }
  }

  /** A statement ends in at most one state. */
  lemma Deterministic(s: Stmt, st: State, one: State, other: State)
    requires Ends(s, st, one) && Ends(s, st, other)
    ensures one == other
  {
    var f: nat :| Exec(s, st, f) == Some(one);
    var g: nat :| Exec(s, st, g) == Some(other);
    MoreFuel(s, st, f, if f < g then g else f);
    MoreFuel(s, st, g, if f < g then g else f);
  }

  // ---------- What loops compute ----------

  /** s := s + (lo + ... + (hi - 1)), by a range loop. */
  lemma {:induction false} RangeSums(v: Var, s: Var, lo: nat, hi: nat, st: State)
    requires v != s && lo <= hi
    ensures var r := ExecRange(v, lo, hi, AssignStmt(s, VarExpr(v), true), st, 0);
            && r.Some? && r.value.out == st.out
            && 2 * Get(r.value.store, s) == 2 * Get(st.store, s) + hi * (hi - 1) - lo * (lo - 1)
    decreases hi - lo
  {
    if lo < hi {
      var inner := State(st.store[v := lo], st.out);
      var next := Exec(AssignStmt(s, VarExpr(v), true), inner, 0).value;
      assert Get(next.store, s) == Get(st.store, s) + lo;
      RangeSums(v, s, lo + 1, hi, next);
      assert (lo + 1) * lo == lo * (lo - 1) + 2 * lo;
    }
  }

  /** The program `for v in 0:n { s += v }` adds n * (n - 1) / 2 to s. */
  lemma LoopSums(v: Var, s: Var, n: nat, st: State)
    requires v != s
    ensures var r := Exec(ForRange(v, Literal(0), Literal(n), AssignStmt(s, VarExpr(v), true)), st, 0);
            r.Some? && r.value.out == st.out && 2 * Get(r.value.store, s) == 2 * Get(st.store, s) + n * (n - 1)
  {
    RangeSums(v, s, 0, n, st);
  }

  /** n, n - 1, ..., 1. */
  function Countdown(n: nat): (xs: seq<int>)
  {
    if n == 0 then [] else [n] + Countdown(n - 1)
  }

  function CountingDown(v: Var): (s: Stmt)
  {
    While(Binary(Lt, Literal(0), VarExpr(v)),
          Block(Print(VarExpr(v)), AssignStmt(v, Binary(Sub, VarExpr(v), Literal(1)), false)))
  }

  /** The program `while (0 < v) { print v; v = v - 1; }` prints the numbers from v down to 1, and takes exactly v
      iterations for that. */
  lemma {:induction false} WhileCounts(v: Var, n: nat, st: State, fuel: nat)
    requires Get(st.store, v) == n
    ensures fuel < n ==> Exec(CountingDown(v), st, fuel).None?
    ensures fuel >= n ==>
              var r := Exec(CountingDown(v), st, fuel);
              r.Some? && r.value.out == st.out + Countdown(n) && Get(r.value.store, v) == 0
    decreases n
  {
    var loop := CountingDown(v);
    assert Eval(loop.condition, st.store) == if 0 < n then 1 else 0;
    if n > 0 && fuel > 0 {
      var printed := State(st.store, st.out + [n]);
      var next := State(st.store[v := n - 1], st.out + [n]);
      assert Exec(loop.body.first, st, fuel) == Some(printed);
      assert Eval(loop.body.rest.value, printed.store) == n - 1;
      assert Exec(loop.body.rest, printed, fuel) == Some(next);
      assert Exec(loop.body, st, fuel) == Some(next);
      WhileCounts(v, n - 1, next, fuel - 1);
      assert st.out + Countdown(n) == next.out + Countdown(n - 1);
    }
  }

  // ---------- Agreement ----------

  /** The stores have the same values of these variables. */
  ghost predicate Agree(a: Store, b: Store, vars: iset<Var>) {
    forall v :: v in vars ==> Get(a, v) == Get(b, v)
  }

  /** Neither run ends, or both do, having printed the same, with the same values of these variables. */
  ghost predicate SameEnd(a: Option<State>, b: Option<State>, vars: iset<Var>) {
    a.Some? == b.Some? && (a.Some? ==> a.value.out == b.value.out && Agree(a.value.store, b.value.store, vars))
  }

  /** Variables of an expression. */
  function Reads(e: Expr): (vs: set<Var>)
  {
    match e
    case Literal(_) => {}
    case VarExpr(v) => {v}
    case Binary(_, a, b) => Reads(a) + Reads(b)
  }

  function ReadsAll(es: seq<Expr>): (vs: set<Var>)
    ensures forall i :: 0 <= i < |es| ==> Reads(es[i]) <= vs
  {
    if es == [] then {} else Reads(es[0]) + ReadsAll(es[1..])
  }

  ghost predicate Within(vs: set<Var>, vars: iset<Var>) {
    forall v :: v in vs ==> v in vars
  }

  lemma {:induction false} EvalAgrees(e: Expr, a: Store, b: Store, vars: iset<Var>)
    requires Agree(a, b, vars) && Within(Reads(e), vars)
    ensures Eval(e, a) == Eval(e, b)
  {
    match e
    case Binary(_, x, y) => EvalAgrees(x, a, b, vars); EvalAgrees(y, a, b, vars);
    case _ =>
  }

  lemma {:induction false} EvalAllAgrees(es: seq<Expr>, a: Store, b: Store, vars: iset<Var>)
    requires Agree(a, b, vars) && Within(ReadsAll(es), vars)
    ensures EvalAll(es, a) == EvalAll(es, b)
  {
    if es != [] {
      EvalAgrees(es[0], a, b, vars);
      EvalAllAgrees(es[1..], a, b, vars);
    }
  }

  /** Binding the same values keeps agreement and extends it to the bound variables. */
  lemma {:induction false} BindAgrees(a: Store, b: Store, vs: seq<Var>, xs: seq<int>, vars: iset<Var>)
    requires Agree(a, b, vars) && |vs| == |xs|
    ensures Agree(Bind(a, vs, xs), Bind(b, vs, xs), vars + iset v | v in vs)
    decreases |vs|
  {
    if vs != [] {
      BindAgrees(a[vs[0] := xs[0]], b[vs[0] := xs[0]], vs[1..], xs[1..], vars + iset{vs[0]});
    }
  }

  lemma {:induction false} BindSame(a: Store, b: Store, vs: seq<Var>, xs: seq<int>, vars: iset<Var>)
    requires Agree(a, b, vars)
    ensures Agree(Bind(a, vs, xs), Bind(b, vs, xs), vars)
    decreases |vs|
  {
    if vs != [] && xs != [] { BindSame(a[vs[0] := xs[0]], b[vs[0] := xs[0]], vs[1..], xs[1..], vars); }
  }

  /** Other variables keep their values. */
  lemma {:induction false} BindElsewhere(s: Store, vs: seq<Var>, xs: seq<int>, v: Var)
    requires v !in vs
    ensures Get(Bind(s, vs, xs), v) == Get(s, v)
    decreases |vs|
  {
    if vs != [] && xs != [] { BindElsewhere(s[vs[0] := xs[0]], vs[1..], xs[1..], v); }
  }

  /** Distinct variables get their values. */
  lemma {:induction false} BindAt(s: Store, vs: seq<Var>, xs: seq<int>, i: nat)
    requires |vs| == |xs| && i < |vs| && forall j, k :: 0 <= j < k < |vs| ==> vs[j] != vs[k]
    ensures Get(Bind(s, vs, xs), vs[i]) == xs[i]
    decreases |vs|
  {
    if i == 0 { BindElsewhere(s[vs[0] := xs[0]], vs[1..], xs[1..], vs[0]); }
    else { BindAt(s[vs[0] := xs[0]], vs[1..], xs[1..], i - 1); }
  }
}
