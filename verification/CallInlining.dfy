/** The call inliner, and the proof that programs with inlined calls do the same. */
module CallInlining {
  import opened Wrappers
  import opened IR
  import opened Inline
  import opened InlineCalls

  // ---------- Inlining one call ----------

  function InlineArgs(s: Stmt, args: seq<Var>, actuals: seq<Expr>): (r: Stmt)
    requires |args| == |actuals|
    decreases |args|
  {
    if args == [] then s else InlineArgs(ReplaceVarByExpr(s, args[0], actuals[0]), args[1..], actuals[1..])
  }

  /** A result goes to its target directly, or through a temporary if an actual mentions the target. */
  function InlineResult(s: Stmt, result: Var, target: Var, staged: bool, next: Var): (r: (Stmt, Var))
  {
    if staged then (Block(VarDecl(next), Block(ReplaceVar(s, result, next), AssignStmt(target, VarExpr(next), false))),
      next + 1)
    else (ReplaceVar(s, result, target), next)
  }

  function InlineResults(s: Stmt, results: seq<Var>, targets: seq<Var>, referenced: set<Var>,
                         next: Var): (r: (Stmt, Var))
    requires |results| == |targets|
    decreases |results|
  {
    if results == [] then (s, next) else
      var (first, n) := InlineResult(s, results[0], targets[0], targets[0] in referenced, next);
      InlineResults(first, results[1..], targets[1..], referenced, n)
  }

  function InlineCall(call: Stmt, next: Var): (r: (Stmt, Var))
    requires call.CallStmt? && |call.callee.args| == |call.actuals| && |call.callee.results| == |call.results|
  {
    InlineResults(InlineArgs(Scope(call.callee.body), call.callee.args, call.actuals),
                  call.callee.results, call.results, ReadsAll(call.actuals), next)
  }

  // ---------- When a call can be inlined ----------

  ghost predicate Distinct(vs: seq<Var>) {
    forall i, j :: 0 <= i < j < |vs| ==> vs[i] != vs[j]
  }

  ghost predicate AllBelow(vs: set<Var>, n: Var) {
    forall v :: v in vs ==> v < n
  }

  ghost function CalleeVars(f: Func): (vs: set<Var>) {
    Mentions(f.body) + SetOf(f.args) + SetOf(f.results)
  }

  /** The callee writes only its results and locals, reads only what it was given or has assigned,
      assigns its results, and shares no variable with the caller; all its variables and the caller's
      are before the temporaries. */
  ghost predicate Inlinable(call: Stmt, caller: set<Var>, n: Var)
    requires call.CallStmt?
  {
    var f := call.callee;
    && |f.args| == |call.actuals| && |f.results| == |call.results|
    && Distinct(f.args) && Distinct(f.results) && Distinct(call.results)
    && SetOf(f.args) !! Writes(f.body) && SetOf(f.args) !! SetOf(f.results)
    && Defined(f.body, Only(f.args)) && (forall r :: r in f.results ==> r in Assigned(f.body, Only(f.args)))
    && CalleeVars(f) !! caller && AllBelow(CalleeVars(f), n) && AllBelow(caller, n)
    && SetOf(call.results) <= caller && ReadsAll(call.actuals) <= caller
  }

  ghost function Only(vs: seq<Var>): (vars: iset<Var>) {
    iset v | v in vs
  }

  // ---------- Arguments ----------

  lemma AgreeLess(a: Store, b: Store, vars: iset<Var>, less: iset<Var>)
    requires Agree(a, b, vars) && less <= vars
    ensures Agree(a, b, less)
  {
  }

  lemma ExceptMore(xs: set<Var>, ys: set<Var>)
    requires xs <= ys
    ensures Except(ys) <= Except(xs)
  {
  }

  /** The body with its arguments bound, and the body with its arguments replaced. */
  lemma {:induction false} ArgsInlined(s: Stmt, args: seq<Var>, actuals: seq<Expr>, b: State, fuel: nat)
    requires |args| == |actuals| && Distinct(args) && SetOf(args) !! Writes(s)
    requires ReadsAll(actuals) !! Writes(s) && ReadsAll(actuals) !! SetOf(args)
    ensures SameEnd(Exec(s, State(Bind(b.store, args, EvalAll(actuals, b.store)), b.out), fuel),
                    Exec(InlineArgs(s, args, actuals), b, fuel), Except(SetOf(args)))
    decreases |args|
  {
    hide Exec, Reads, Writes;
    if args != [] {
      var x, e := args[0], actuals[0];
      var vals := EvalAll(actuals, b.store);
      var a1 := State(Bind(b.store, args, vals), b.out);
      var b1 := State(Bind(b.store, args[1..], vals[1..]), b.out);
      FirstArgument(args, actuals, b.store);
      ArgumentReplaced(s, x, e, a1, b1, fuel);
      WritesReplaced(s, x, e);
      assert vals[1..] == EvalAll(actuals[1..], b.store);
      RestOfArgs(args, actuals);
      var s1 := ReplaceVarByExpr(s, x, e);
      ArgsInlined(s1, args[1..], actuals[1..], b, fuel);
      ArgsChain(Exec(s, a1, fuel), Exec(s1, b1, fuel), Exec(InlineArgs(s, args, actuals), b, fuel), args, e);
    }
  }

  lemma RestOfArgs(args: seq<Var>, actuals: seq<Expr>)
    requires |args| == |actuals| && args != [] && Distinct(args)
    ensures Distinct(args[1..]) && SetOf(args[1..]) <= SetOf(args) && args[0] in SetOf(args) && args[0] !in args[1..]
    ensures Reads(actuals[0]) <= ReadsAll(actuals) && ReadsAll(actuals[1..]) <= ReadsAll(actuals)
  {
  }

  lemma FirstArgument(args: seq<Var>, actuals: seq<Expr>, s: Store)
    requires |args| == |actuals| && args != [] && Distinct(args) && ReadsAll(actuals) !! SetOf(args)
    ensures var vals := EvalAll(actuals, s);
            Stands(Bind(s, args, vals), Bind(s, args[1..], vals[1..]), args[0], actuals[0])
  {
    hide Reads;
    var x, e, vals := args[0], actuals[0], EvalAll(actuals, s);
    var rest, restVals := args[1..], vals[1..];
    RestOfArgs(args, actuals);
    assert Agree(s[x := vals[0]], s, Except({x}));
    BindSame(s[x := vals[0]], s, rest, restVals, Except({x}));
    BindElsewhere(s[x := vals[0]], rest, restVals, x);
    forall v | v in Reads(e) ensures Get(Bind(s, rest, restVals), v) == Get(s, v) {
      BindElsewhere(s, rest, restVals, v);
    }
    EvalAgrees(e, Bind(s, rest, restVals), s, iset v | v in Reads(e));
  }

  lemma ArgsChain(a: Option<State>, b: Option<State>, c: Option<State>, args: seq<Var>, e: Expr)
    requires args != [] && SameButStands(a, b, args[0], e) && SameEnd(b, c, Except(SetOf(args[1..])))
    ensures SameEnd(a, c, Except(SetOf(args)))
  {
    assert SetOf(args) == {args[0]} + SetOf(args[1..]);
    if a.Some? {
      ExceptMore({args[0]}, SetOf(args));
      ExceptMore(SetOf(args[1..]), SetOf(args));
      AgreeLess(a.value.store, b.value.store, Except({args[0]}), Except(SetOf(args)));
      AgreeLess(b.value.store, c.value.store, Except(SetOf(args[1..])), Except(SetOf(args)));
    }
  }

  // ---------- Results ----------

  /** c has the results of a in the targets, and its other variables, except for temporaries. */
  ghost predicate Delivered(a: Store, c: Store, results: seq<Var>, targets: seq<Var>, next: Var)
    requires |results| == |targets|
  {
    && (forall i :: 0 <= i < |results| ==> Get(c, targets[i]) == Get(a, results[i]))
    && forall v: Var :: v < next && v !in results && v !in targets ==> Get(c, v) == Get(a, v)
  }

  ghost predicate SameDelivered(a: Option<State>, c: Option<State>, results: seq<Var>, targets: seq<Var>, next: Var)
    requires |results| == |targets|
  {
    a.Some? == c.Some? &&
      (a.Some? ==> a.value.out == c.value.out && Delivered(a.value.store, c.value.store, results, targets, next))
  }

  /** What inlining results needs of the statement so far. */
  ghost predicate ResultsReady(s: Stmt, results: seq<Var>, targets: seq<Var>, referenced: set<Var>, vars: iset<Var>,
                               next: Var) {
    && |results| == |targets| && Distinct(results) && Distinct(targets)
    && Defined(s, vars) && AllBelow(Mentions(s), next)
    && (forall i :: 0 <= i < |results| ==>
          && results[i] !in vars && results[i] in Assigned(s, vars) && results[i] < next
          && targets[i] in vars && targets[i] < next && targets[i] !in results
          && (targets[i] !in referenced ==> targets[i] !in Mentions(s)))
    && forall v: Var :: v >= next ==> v in vars
  }

  lemma {:induction false} ResultsInlined(s: Stmt, results: seq<Var>, targets: seq<Var>, referenced: set<Var>,
                                          vars: iset<Var>, next: Var,
                                          b: State, fuel: nat)
    requires |results| == |targets| && ResultsReady(s, results, targets, referenced, vars, next)
    ensures SameDelivered(Exec(s, b, fuel), Exec(InlineResults(s, results, targets, referenced, next).0, b, fuel),
            results, targets, next)
    decreases |results|
  {
    hide Exec, ResultsReady, Defined, Assigned, Mentions;
    if results != [] {
      var staged := targets[0] in referenced;
      var (s1, n) := InlineResult(s, results[0], targets[0], staged, next);
      FirstResult(s, results, targets, referenced, vars, next, b, fuel);
      RestReady(s, results, targets, referenced, vars, next);
      ResultsInlined(s1, results[1..], targets[1..], referenced, vars, n, b, fuel);
      Deliver(Exec(s, b, fuel), Exec(s1, b, fuel),
        Exec(InlineResults(s, results, targets, referenced, next).0, b, fuel),
              results, targets, next, n, vars, s, referenced);
    }
  }

  /** One result delivered. */
  ghost predicate FirstDelivered(a: Option<State>, c: Option<State>, result: Var, target: Var, next: Var) {
    && a.Some? == c.Some?
    && (a.Some? ==>
          && a.value.out == c.value.out && Get(c.value.store, target) == Get(a.value.store, result)
          && forall v: Var :: v < next && v != result && v != target ==> Get(c.value.store, v) == Get(a.value.store, v))
  }

  lemma FirstResult(s: Stmt, results: seq<Var>, targets: seq<Var>, referenced: set<Var>, vars: iset<Var>, next: Var,
                    b: State, fuel: nat)
    requires ResultsReady(s, results, targets, referenced, vars, next) && results != []
    ensures var s1 := InlineResult(s, results[0], targets[0], targets[0] in referenced, next).0;
            FirstDelivered(Exec(s, b, fuel), Exec(s1, b, fuel), results[0], targets[0], next)
  {
    hide Defined, Assigned, Mentions, ReplaceVar;
    var r, t := results[0], targets[0];
    assert Distinct(results) && r in Assigned(s, vars) && r !in vars;
    if t in referenced {
      assert next !in Mentions(s);
      ResultReplaced(s, r, next, vars, b, b, fuel);
      StagedRun(s, r, t, next, b, fuel);
      var ra, rb := Exec(s, b, fuel), Exec(ReplaceVar(s, r, next), b, fuel);
      if ra.Some? { MovedElsewhere(ra.value.store, rb.value.store, r, next); }
    } else {
      ResultReplaced(s, r, t, vars, b, b, fuel);
      var ra, rb := Exec(s, b, fuel), Exec(ReplaceVar(s, r, t), b, fuel);
      if ra.Some? { MovedElsewhere(ra.value.store, rb.value.store, r, t); }
    }
  }

  lemma MovedElsewhere(a: Store, b: Store, r: Var, t: Var)
    requires Moved(a, b, r, t, true)
    ensures Get(a, r) == Get(b, t) && forall v: Var :: v != r && v != t ==> Get(a, v) == Get(b, v)
  {
    forall v: Var | v != r && v != t ensures Get(a, v) == Get(b, v) { assert v in Except({r, t}); }
  }

  lemma StagedRun(s: Stmt, r: Var, t: Var, tmp: Var, b: State, fuel: nat)
    ensures var c, d := Exec(ReplaceVar(s, r, tmp), b, fuel), Exec(InlineResult(s, r, t, true, tmp).0, b, fuel);
            d == if c.None? then None else Some(State(c.value.store[t := Get(c.value.store, tmp)], c.value.out))
  {
    hide ReplaceVar;
    var s0, copy := ReplaceVar(s, r, tmp), AssignStmt(t, VarExpr(tmp), false);
    var c := Exec(s0, b, fuel);
    assert Exec(Block(s0, copy), b, fuel) == if c.None? then None else Exec(copy, c.value, fuel);
    assert Exec(VarDecl(tmp), b, fuel) == Some(b);
  }

  /** The statement with one result inlined is ready for the others. */
  lemma RestReady(s: Stmt, results: seq<Var>, targets: seq<Var>, referenced: set<Var>, vars: iset<Var>, next: Var)
    requires ResultsReady(s, results, targets, referenced, vars, next) && results != []
    ensures var (s1, n) := InlineResult(s, results[0], targets[0], targets[0] in referenced, next);
            ResultsReady(s1, results[1..], targets[1..], referenced, vars, n) && next <= n
  {
    hide ReplaceVar, Defined, Assigned, Mentions;
    var r, t := results[0], targets[0];
    var staged := t in referenced;
    var w := if staged then next else t;
    var (s1, n) := InlineResult(s, r, t, staged, next);
    var s0 := ReplaceVar(s, r, w);
    assert t in vars && r !in vars && r < next && t < next && t !in results;
    DefinedRenamed(s, r, w, vars, vars);
    MentionsRenamed(s, r, w);
    InlinedMentions(s, r, t, staged, next);
    if staged { StagedDefined(s0, t, next, vars); }
    forall i | 0 <= i < |results| - 1
      ensures results[1..][i] in Assigned(s1, vars)
      ensures targets[1..][i] !in referenced ==> targets[1..][i] !in Mentions(s1)
    {
      assert results[i + 1] != r && targets[i + 1] != t;
      assert results[i + 1] in Assigned(s, vars);
    }
  }

  lemma InlinedMentions(s: Stmt, r: Var, t: Var, staged: bool, next: Var)
    requires r != t && r < next
    ensures Mentions(InlineResult(s, r, t, staged, next).0) <= Mentions(s) + {t} + (if staged then {next} else {})
  {
    MentionsRenamed(s, r, if staged then next else t);
    if staged {
      var s0, copy := ReplaceVar(s, r, next), AssignStmt(t, VarExpr(next), false);
      assert Mentions(copy) == {t, next};
      assert Mentions(Block(s0, copy)) == Mentions(s0) + Mentions(copy);
    }
  }

  lemma StagedDefined(s0: Stmt, t: Var, tmp: Var, vars: iset<Var>)
    requires Defined(s0, vars) && tmp in Assigned(s0, vars)
    ensures var s1 := Block(VarDecl(tmp), Block(s0, AssignStmt(t, VarExpr(tmp), false)));
            Defined(s1, vars) && Assigned(s0, vars) <= Assigned(s1, vars)
  {
    var copy := AssignStmt(t, VarExpr(tmp), false);
    assert Assigned(VarDecl(tmp), vars) == vars;
    assert Defined(copy, Assigned(s0, vars));
    assert Defined(Block(s0, copy), vars);
    assert Assigned(Block(s0, copy), vars) == Assigned(s0, vars) + iset{t};
  }

  lemma Deliver(a: Option<State>, b: Option<State>, c: Option<State>, results: seq<Var>, targets: seq<Var>, next: Var,
                n: Var,
                vars: iset<Var>, s: Stmt, referenced: set<Var>)
    requires ResultsReady(s, results, targets, referenced, vars, next) && results != [] && next <= n
    requires FirstDelivered(a, b, results[0], targets[0], next) && SameDelivered(b, c, results[1..], targets[1..], n)
    ensures SameDelivered(a, c, results, targets, next)
  {
    hide Defined, Assigned, Mentions;
    if a.Some? {
      forall i | 0 <= i < |results| ensures Get(c.value.store, targets[i]) == Get(a.value.store, results[i]) {
        if i == 0 {
          assert targets[0] !in results[1..] && targets[0] !in targets[1..] && targets[0] < n;
        } else {
          assert Get(c.value.store, targets[1..][i - 1]) == Get(b.value.store, results[1..][i - 1]);
          assert results[i] != results[0] && results[i] != targets[0] && results[i] < next;
        }
      }
      forall v: Var | v < next && v !in results && v !in targets
        ensures Get(c.value.store, v) == Get(a.value.store, v) {
        assert v !in results[1..] && v !in targets[1..];
      }
    }
  }

  // ---------- The inlined call ----------

  lemma {:induction false} ArgsKeep(s: Stmt, args: seq<Var>, actuals: seq<Expr>, vars: iset<Var>)
    requires |args| == |actuals| && Defined(s, vars) && SetOf(args) !! Writes(s) && Within(ReadsAll(actuals), vars)
    ensures var r := InlineArgs(s, args, actuals);
            && Defined(r, vars) && Assigned(r, vars) == Assigned(s, vars)
            && Mentions(r) <= Mentions(s) + ReadsAll(actuals)
    decreases |args|
  {
    hide Defined, Assigned, Mentions, Writes, Reads;
    if args != [] {
      var x, e := args[0], actuals[0];
      assert x in SetOf(args) && Reads(e) <= ReadsAll(actuals) && ReadsAll(actuals[1..]) <= ReadsAll(actuals);
      DefinedReplaced(s, x, e, vars);
      WritesReplaced(s, x, e);
      MentionsReplaced(s, x, e);
      assert SetOf(args[1..]) <= SetOf(args);
      ArgsKeep(ReplaceVarByExpr(s, x, e), args[1..], actuals[1..], vars);
    }
  }

  lemma InlinableFacts(call: Stmt, caller: set<Var>, n: Var, next: Var)
    requires call.CallStmt? && Inlinable(call, caller, n) && n <= next
    ensures var f := call.callee;
            var vars := Except(Writes(f.body));
            && SetOf(f.args) !! Writes(f.body) && ReadsAll(call.actuals) !! Writes(f.body) &&
              ReadsAll(call.actuals) !! SetOf(f.args)
            && Distinct(f.args) && |f.args| == |call.actuals| && |f.results| == |call.results|
            && ResultsReady(InlineArgs(Scope(f.body), f.args, call.actuals), f.results, call.results,
              ReadsAll(call.actuals), vars, next)
  {
    hide Reads, Writes, Mentions, Defined, Assigned;
    var f := call.callee;
    var vars, only := Except(Writes(f.body)), Only(f.args);
    var s := Scope(f.body);
    ScopeIs(f.body, vars);
    WritesAreMentioned(f.body);
    assert only <= vars;
    DefinedMore(f.body, only, vars);
    ArgsKeep(s, f.args, call.actuals, vars);
    forall i | 0 <= i < |f.results|
      ensures f.results[i] in Writes(f.body) && f.results[i] in CalleeVars(f)
      ensures f.results[i] in Assigned(f.body, vars) {
      assert f.results[i] in f.results;
      assert f.results[i] in SetOf(f.results);
      AssignedIsWritten(f.body, only, f.results[i]);
    }
    forall i | 0 <= i < |call.results| ensures call.results[i] in caller && call.results[i] !in CalleeVars(f) {
      assert call.results[i] in SetOf(call.results);
    }
  }

  lemma ScopeIs(body: Stmt, vars: iset<Var>)
    ensures Writes(Scope(body)) == Writes(body) && Mentions(Scope(body)) == Mentions(body)
    ensures Assigned(Scope(body), vars) == Assigned(body, vars) && Defined(Scope(body), vars) == Defined(body, vars)
  {
  }

  ghost function Members(vs: set<Var>): (r: iset<Var>) {
    iset v | v in vs
  }

  /** The inlined call has the effect of the call, on the caller's variables and the output. */
  lemma InlinedCallMeansCall(call: Stmt, caller: set<Var>, n: Var, next: Var, a: State, b: State, fuel: nat)
    requires call.CallStmt? && Inlinable(call, caller, n) && n <= next
    requires Agree(a.store, b.store, Members(caller)) && a.out == b.out
    ensures SameEnd(Exec(call, a, fuel), Exec(InlineCall(call, next).0, b, fuel), Members(caller))
  {
    hide Reads, Writes, Mentions, Defined, Assigned, Bind, Inlinable, ResultsReady;
    var f := call.callee;
    InlinableFacts(call, caller, n, next);
    var vals := EvalAll(call.actuals, a.store);
    SameActuals(call, caller, n, a.store, b.store);
    var ca, cb := State(Bind(map[], f.args, vals), a.out), State(Bind(b.store, f.args, vals), b.out);
    BodyRuns(call, caller, n, ca, cb, b.store, vals, fuel);
    var s1 := InlineArgs(Scope(f.body), f.args, call.actuals);
    ScopeIs(f.body, iset{});
    ArgsInlined(Scope(f.body), f.args, call.actuals, b, fuel);
    assert Exec(Scope(f.body), cb, fuel) == Exec(f.body, cb, fuel);
    ResultsInlined(s1, f.results, call.results, ReadsAll(call.actuals), Except(Writes(f.body)), next, b, fuel);
    var rp := Exec(InlineCall(call, next).0, b, fuel);
    if rp.Some? {
      CallEnds(call, caller, n, next, a, b, Exec(f.body, ca, fuel).value, cb, Exec(s1, b, fuel).value, rp.value, fuel);
    }
  }

  lemma SameActuals(call: Stmt, caller: set<Var>, n: Var, a: Store, b: Store)
    requires call.CallStmt? && Inlinable(call, caller, n) && Agree(a, b, Members(caller))
    ensures EvalAll(call.actuals, a) == EvalAll(call.actuals, b)
  {
    EvalAllAgrees(call.actuals, a, b, Members(caller));
  }

  lemma BodyRuns(call: Stmt, caller: set<Var>, n: Var, ca: State, cb: State, s: Store, vals: seq<int>, fuel: nat)
    requires call.CallStmt? && Inlinable(call, caller, n) && |vals| == |call.callee.args| && ca.out == cb.out
    requires ca.store == Bind(map[], call.callee.args, vals) && cb.store == Bind(s, call.callee.args, vals)
    ensures SameEnd(Exec(call.callee.body, ca, fuel), Exec(call.callee.body, cb, fuel),
            Assigned(call.callee.body, Only(call.callee.args)))
  {
    hide Defined, Assigned, Mentions, Writes, Bind;
    var none: iset<Var> := iset{};
    BindAgrees(map[], s, call.callee.args, vals, none);
    assert none + (iset v | v in call.callee.args) == Only(call.callee.args);
    DependsOnAssigned(call.callee.body, Only(call.callee.args), ca, cb, fuel);
  }

  /** The last step: reading off the caller's variables. */
  lemma CallEnds(call: Stmt, caller: set<Var>, n: Var, next: Var, a: State, b: State, rc: State, cb: State, r1: State,
                 rp: State, fuel: nat)
    requires call.CallStmt? && Inlinable(call, caller, n) && n <= next && Agree(a.store, b.store, Members(caller))
    requires cb.store == Bind(b.store, call.callee.args, EvalAll(call.actuals, a.store))
    requires Exec(call.callee.body, cb, fuel).Some?
    requires Agree(rc.store, Exec(call.callee.body, cb, fuel).value.store,
             Assigned(call.callee.body, Only(call.callee.args)))
    requires Agree(Exec(call.callee.body, cb, fuel).value.store, r1.store, Except(SetOf(call.callee.args)))
    requires |call.callee.results| == |call.results| &&
             Delivered(r1.store, rp.store, call.callee.results, call.results, next)
    ensures Agree(Bind(a.store, call.results, GetAll(rc.store, call.callee.results)), rp.store, Members(caller))
  {
    hide Exec, Reads, Writes, Mentions, Defined, Assigned, Bind;
    var f := call.callee;
    var rb := Exec(f.body, cb, fuel).value;
    var ks := GetAll(rc.store, f.results);
    forall v | v in caller ensures Get(Bind(a.store, call.results, ks), v) == Get(rp.store, v) {
      assert v in Members(caller) && v !in CalleeVars(f) && v < next;
      if v in call.results {
        var i :| 0 <= i < |call.results| && call.results[i] == v;
        BindAt(a.store, call.results, ks, i);
        var r := f.results[i];
        assert r in f.results && r in SetOf(f.results);
        assert r in Assigned(f.body, Only(f.args)) && r in Except(SetOf(f.args));
      } else {
        BindElsewhere(a.store, call.results, ks, v);
        WritesAreMentioned(f.body);
        Unwritten(f.body, cb, fuel, v);
        BindElsewhere(b.store, f.args, EvalAll(call.actuals, a.store), v);
        assert v in Except(SetOf(f.args));
      }
    }
  }

  // ---------- Programs ----------

  /** Calls have as many actuals and results as their callees. */
  predicate CallsFit(s: Stmt)
  {
    match s
    case Block(first, rest) => CallsFit(first) && CallsFit(rest)
    case Scope(scoped) => CallsFit(scoped)
    case IfThenElse(_, t, e) => CallsFit(t) && CallsFit(e)
    case ForRange(_, _, _, body) => CallsFit(body)
    case While(_, body) => CallsFit(body)
    case CallStmt(results, callee, actuals) => |callee.args| == |actuals| && |callee.results| == |results|
    case _ => true
  }

  /** A program whose chosen calls are inlined. */
  function InlineAll(should: Stmt -> bool, s: Stmt, next: Var): (r: (Stmt, Var))
    requires CallsFit(s)
  {
    match s
    case Block(first, rest) =>
      var (f, n) := InlineAll(should, first, next);
      var (r, m) := InlineAll(should, rest, n);
      (Block(f, r), m)
    case Scope(scoped) =>
      var (b, n) := InlineAll(should, scoped, next);
      (Scope(b), n)
    case IfThenElse(c, t, e) =>
      var (t', n) := InlineAll(should, t, next);
      var (e', m) := InlineAll(should, e, n);
      (IfThenElse(c, t', e'), m)
    case ForRange(v, start, end, body) =>
      var (b, n) := InlineAll(should, body, next);
      (ForRange(v, start, end, b), n)
    case While(c, body) =>
      var (b, n) := InlineAll(should, body, next);
      (While(c, b), n)
    case CallStmt(_, _, _) => if should(s) then InlineCall(s, next) else (s, next)
    case _ => (s, next)
  }

  ghost predicate AllInlinable(should: Stmt -> bool, s: Stmt, caller: set<Var>, n: Var)
  {
    match s
    case Block(first, rest) => AllInlinable(should, first, caller, n) && AllInlinable(should, rest, caller, n)
    case Scope(scoped) => AllInlinable(should, scoped, caller, n)
    case IfThenElse(_, t, e) => AllInlinable(should, t, caller, n) && AllInlinable(should, e, caller, n)
    case ForRange(_, _, _, body) => AllInlinable(should, body, caller, n)
    case While(_, body) => AllInlinable(should, body, caller, n)
    case CallStmt(_, _, _) => should(s) ==> Inlinable(s, caller, n)
    case _ => true
  }

  lemma {:induction false} TempsGrow(should: Stmt -> bool, s: Stmt, next: Var)
    requires CallsFit(s)
    ensures next <= InlineAll(should, s, next).1
  {
    match s
    case Block(first, rest) =>
      TempsGrow(should, first, next); TempsGrow(should, rest, InlineAll(should, first, next).1);
    case Scope(scoped) => TempsGrow(should, scoped, next);
    case IfThenElse(_, t, e) => TempsGrow(should, t, next); TempsGrow(should, e, InlineAll(should, t, next).1);
    case ForRange(_, _, _, body) => TempsGrow(should, body, next);
    case While(_, body) => TempsGrow(should, body, next);
    case CallStmt(results, callee, actuals) =>
      if should(s) {
        var body := InlineArgs(Scope(callee.body), callee.args, actuals);
        ResultsGrow(body, callee.results, results, ReadsAll(actuals), next);
      }
    case _ =>
  }

  lemma {:induction false} ResultsGrow(s: Stmt, results: seq<Var>, targets: seq<Var>, referenced: set<Var>, next: Var)
    requires |results| == |targets|
    ensures next <= InlineResults(s, results, targets, referenced, next).1
    decreases |results|
  {
    if results != [] {
      var (first, n) := InlineResult(s, results[0], targets[0], targets[0] in referenced, next);
      ResultsGrow(first, results[1..], targets[1..], referenced, n);
    }
  }

  /** A program and the program with its calls inlined both run on, or both end with the same output
      and the same values of the program's variables. */
  lemma {:induction false} InliningPreservesMeaning(should: Stmt -> bool, s: Stmt, caller: set<Var>, n: Var, next: Var,
                                                    a: State, b: State, fuel: nat)
    requires CallsFit(s) && Mentions(s) <= caller && AllInlinable(should, s, caller, n) && n <= next
    requires Agree(a.store, b.store, Members(caller)) && a.out == b.out
    ensures SameEnd(Exec(s, a, fuel), Exec(InlineAll(should, s, next).0, b, fuel), Members(caller))
    decreases fuel, s, 1
  {
    hide Inlinable, InlineCall, Reads, Bind;
    match s
    case Block(first, rest) =>
      InliningPreservesMeaning(should, first, caller, n, next, a, b, fuel);
      TempsGrow(should, first, next);
      var (f, m) := InlineAll(should, first, next);
      var ra, rb := Exec(first, a, fuel), Exec(f, b, fuel);
      if ra.Some? { InliningPreservesMeaning(should, rest, caller, n, m, ra.value, rb.value, fuel); }
    case Scope(scoped) => InliningPreservesMeaning(should, scoped, caller, n, next, a, b, fuel);
    case IfThenElse(c, t, e) =>
      EvalAgrees(c, a.store, b.store, Members(caller));
      TempsGrow(should, t, next);
      InliningPreservesMeaning(should, t, caller, n, next, a, b, fuel);
      InliningPreservesMeaning(should, e, caller, n, InlineAll(should, t, next).1, a, b, fuel);
    case ForRange(v, start, end, body) =>
      EvalAgrees(start, a.store, b.store, Members(caller));
      EvalAgrees(end, a.store, b.store, Members(caller));
      RangeInlined(should, v, Eval(start, a.store), Eval(end, a.store), body, caller, n, next, a, b, fuel);
    case While(c, body) =>
      EvalAgrees(c, a.store, b.store, Members(caller));
      if Eval(c, a.store) != 0 && fuel > 0 {
        InliningPreservesMeaning(should, body, caller, n, next, a, b, fuel);
        var ra, rb := Exec(body, a, fuel), Exec(InlineAll(should, body, next).0, b, fuel);
        if ra.Some? { InliningPreservesMeaning(should, s, caller, n, next, ra.value, rb.value, fuel - 1); }
      }
    case CallStmt(_, _, _) =>
      if should(s) {
        InlinedCallMeansCall(s, caller, n, next, a, b, fuel);
      } else {
        SameStatement(s, caller, a, b, fuel);
      }
    case _ => SameStatement(s, caller, a, b, fuel);
  }

  /** Statements that stay as they are. */
  lemma SameStatement(s: Stmt, caller: set<Var>, a: State, b: State, fuel: nat)
    requires s.Pass? || s.VarDecl? || s.AssignStmt? || s.Print? || s.CallStmt?
    requires Mentions(s) <= caller && Agree(a.store, b.store, Members(caller)) && a.out == b.out
    ensures SameEnd(Exec(s, a, fuel), Exec(s, b, fuel), Members(caller))
  {
    hide Exec;
    AssignedGrows(s, Members(caller));
    DependsOnAssigned(s, Members(caller), a, b, fuel);
  }

  lemma {:induction false} RangeInlined(should: Stmt -> bool, v: Var, i: int, hi: int, body: Stmt, caller: set<Var>,
                                        n: Var, next: Var, a: State, b: State, fuel: nat)
    requires CallsFit(body) && Mentions(body) <= caller && v in caller && AllInlinable(should, body, caller, n) &&
             n <= next
    requires Agree(a.store, b.store, Members(caller)) && a.out == b.out
    ensures SameEnd(ExecRange(v, i, hi, body, a, fuel), ExecRange(v, i, hi, InlineAll(should, body, next).0, b, fuel),
            Members(caller))
    decreases fuel, body, 2, hi - i
  {
    if i < hi {
      var a', b' := State(a.store[v := i], a.out), State(b.store[v := i], b.out);
      InliningPreservesMeaning(should, body, caller, n, next, a', b', fuel);
      var ra, rb := Exec(body, a', fuel), Exec(InlineAll(should, body, next).0, b', fuel);
      if ra.Some? { RangeInlined(should, v, i + 1, hi, body, caller, n, next, ra.value, rb.value, fuel); }
    }
  }

  // ---------- The conditions are needed ----------

  function AddOne(r: Var): (f: Func)
  {
    Func([], [r], AssignStmt(r, Literal(1), true))
  }

  /** r += 1, called for x: the call leaves 1 in x whatever x was, the inlined body adds to x. */
  lemma ReadBeforeAssigned(x: Var, r: Var, next: Var, st: State)
    requires x != r
    ensures var f, call := AddOne(r), CallStmt([x], AddOne(r), []);
            && !Defined(f.body, Only(f.args))
            && Exec(call, st, 0) == Some(State(st.store[x := 1], st.out))
            && Exec(InlineCall(call, next).0, st, 0) == Some(State(st.store[x := Get(st.store, x) + 1], st.out))
  {
    hide *;
    AddOneReads(r);
    CallsAddOne(x, r, st);
    InlinesAddOne(x, r, next);
    AddsOne(x, st);
  }

  lemma AddOneReads(r: Var)
    ensures !Defined(AddOne(r).body, Only(AddOne(r).args))
  {
  }

  lemma AddsOne(x: Var, st: State)
    ensures Exec(Scope(AssignStmt(x, Literal(1), true)), st, 0) ==
            Some(State(st.store[x := Get(st.store, x) + 1], st.out))
  {
    hide *;
    ScopeRuns(AssignStmt(x, Literal(1), true), st, 0);
    AssignAdds(x, AssignStmt(x, Literal(1), true), Literal(1), st, 0);
  }

  lemma ScopeRuns(s: Stmt, st: State, fuel: nat)
    ensures Exec(Scope(s), st, fuel) == Exec(s, st, fuel)
  {
    hide Eval, ExecRange;
  }

  lemma AssignAdds(x: Var, s: Stmt, e: Expr, st: State, fuel: nat)
    requires s == AssignStmt(x, e, true) && e == Literal(1)
    ensures Exec(s, st, fuel) == Some(State(st.store[x := Get(st.store, x) + 1], st.out))
  {
    hide ExecRange;
  }

  lemma CallsAddOne(x: Var, r: Var, st: State)
    ensures Exec(CallStmt([x], AddOne(r), []), st, 0) == Some(State(st.store[x := 1], st.out))
  {
    var f := AddOne(r);
    var inner := State(Bind(map[], [], []), st.out);
    assert Exec(f.body, inner, 0) == Some(State(map[r := 1], st.out));
    assert GetAll(map[r := 1], [r]) == [1];
    assert Bind(st.store, [x], [1]) == st.store[x := 1];
    assert Exec(CallStmt([x], f, []), st, 0) == Some(State(Bind(st.store, [x], [1]), st.out));
  }

  lemma InlinesAddOne(x: Var, r: Var, next: Var)
    requires x != r
    ensures InlineCall(CallStmt([x], AddOne(r), []), next).0 == Scope(AssignStmt(x, Literal(1), true))
  {
    var f := AddOne(r);
    var s := Scope(f.body);
    assert ReadsAll([]) == {} && [r][1..] == [] && [x][1..] == [];
    InlineArgsDone(s, [], []);
    InlineResultsNext(s, [r], [x], {}, next);
    InlineResultsDone(ReplaceVar(s, r, x), [], [], {}, next);
    assert ReplaceVar(f.body, r, x) == AssignStmt(x, Literal(1), true);
  }

  /** f(a) = (r = 1; r += a) */
  function OneMore(a: Var, r: Var): (f: Func)
  {
    Func([a], [r], Block(AssignStmt(r, Literal(1), false), AssignStmt(r, VarExpr(a), true)))
  }

  /** x = f(x): the call adds one to x, whatever it was... */
  lemma CallOneMore(x: Var, a: Var, r: Var, st: State)
    requires x != r && x != a && a != r
    ensures var end := Exec(CallStmt([x], OneMore(a, r), [VarExpr(x)]), st, 0);
            end.Some? && Get(end.value.store, x) == Get(st.store, x) + 1
  {
    var f, k := OneMore(a, r), Get(st.store, x);
    var one, two := f.body.first, f.body.rest;
    assert EvalAll([VarExpr(x)], st.store) == [k];
    var s0: Store := map[a := k];
    assert Bind(map[], [a], [k]) == s0[a := k] == s0;
    var s1 := s0[r := 1];
    assert Exec(one, State(s0, st.out), 0) == Some(State(s1, st.out));
    assert Eval(VarExpr(a), s1) == k;
    assert Exec(two, State(s1, st.out), 0) == Some(State(s1[r := k + 1], st.out));
    assert Exec(f.body, State(s0, st.out), 0) == Some(State(s1[r := k + 1], st.out));
    BindAt(st.store, [x], GetAll(s1[r := k + 1], [r]), 0);
  }

  /** ... but replacing the result by x without a temporary overwrites the actual before it is read: x is 2
      afterwards, whatever it was. */
  lemma StagingNeeded(x: Var, a: Var, r: Var, st: State)
    requires x != r && x != a && a != r
    ensures var end := Exec(ReplaceVar(ReplaceVarByExpr(OneMore(a, r).body, a, VarExpr(x)), r, x), st, 0);
            end.Some? && Get(end.value.store, x) == 2
  {
    var one, two := OneMore(a, r).body.first, OneMore(a, r).body.rest;
    var first, second := AssignStmt(x, Literal(1), false), AssignStmt(x, VarExpr(x), true);
    assert ReplaceVar(ReplaceVarByExpr(one, a, VarExpr(x)), r, x) == first;
    assert ReplaceVar(ReplaceVarByExpr(two, a, VarExpr(x)), r, x) == second;
    var s0 := st.store;
    assert Exec(first, st, 0) == Some(State(s0[x := 1], st.out));
    assert Exec(second, State(s0[x := 1], st.out), 0) == Some(State(s0[x := 1][x := 2], st.out));
    assert Exec(Block(first, second), st, 0) == Some(State(s0[x := 1][x := 2], st.out));
  }

  // ---------- The rewriter ----------

  class CallRewriter {
    const shouldInline: Stmt -> bool
    /** The temporary that the name generator gives out next. */
    var nextName: Var

    constructor (shouldInline: Stmt -> bool, nextName: Var)
      ensures this.shouldInline == shouldInline && this.nextName == nextName
    {
      this.shouldInline, this.nextName := shouldInline, nextName;
    }

    /** visit(CallStmt) */
    method VisitCall(op: Stmt) returns (stmt: Stmt)
      requires op.CallStmt? && CallsFit(op)
      modifies this
      ensures (stmt, nextName) == InlineAll(shouldInline, op, old(nextName))
    {
      hide InlineArgs, InlineResults;
      if !shouldInline(op) {
        return op;
      }
      stmt := ReplaceParameters(op);
      stmt := ReplaceResults(op, stmt);
    }

    /** Parameters of the callee are replaced with arguments. */
    method ReplaceParameters(op: Stmt) returns (stmt: Stmt)
      requires op.CallStmt? && CallsFit(op)
      ensures stmt == InlineArgs(Scope(op.callee.body), op.callee.args, op.actuals)
    {
      hide InlineArgs, ReplaceVarByExpr;
      var args := op.callee.args;
      stmt := Scope(op.callee.body);
      assert args[0..] == args && op.actuals[0..] == op.actuals;
      for i := 0 to |args|
        invariant InlineArgs(stmt, args[i..], op.actuals[i..]) == InlineArgs(Scope(op.callee.body), args, op.actuals)
      {
        InlineArgsNext(stmt, args[i..], op.actuals[i..]);
        assert args[i..][1..] == args[i + 1..] && op.actuals[i..][1..] == op.actuals[i + 1..];
        stmt := ReplaceVarByExpr(stmt, args[i], op.actuals[i]);
      }
      InlineArgsDone(stmt, args[|args|..], op.actuals[|args|..]);
    }

    /** Result variables of the callee are replaced with assignment targets. */
    method ReplaceResults(op: Stmt, body: Stmt) returns (stmt: Stmt)
      requires op.CallStmt? && CallsFit(op)
      modifies this
      ensures (stmt, nextName) ==
              InlineResults(body, op.callee.results, op.results, ReadsAll(op.actuals), old(nextName))
    {
      hide InlineResults, ReplaceVar, ReadsAll;
      var results := op.callee.results;
      var referencedVars := ReadsAll(op.actuals);
      stmt := body;
      ghost var inlined := InlineResults(stmt, results, op.results, referencedVars, nextName);
      assert results[0..] == results && op.results[0..] == op.results;
      for i := 0 to |op.results|
        invariant InlineResults(stmt, results[i..], op.results[i..], referencedVars, nextName) == inlined
      {
        InlineResultsNext(stmt, results[i..], op.results[i..], referencedVars, nextName);
        assert results[i..][1..] == results[i + 1..] && op.results[i..][1..] == op.results[i + 1..];
        if op.results[i] in referencedVars {
          var tmpRes := nextName;
          nextName := nextName + 1;
          stmt := ReplaceVar(stmt, results[i], tmpRes);
          stmt := Block(VarDecl(tmpRes), Block(stmt, AssignStmt(op.results[i], VarExpr(tmpRes), false)));
        } else {
          stmt := ReplaceVar(stmt, results[i], op.results[i]);
        }
      }
      InlineResultsDone(stmt, results[|results|..], op.results[|results|..], referencedVars, nextName);
    }

    method Rewrite(s: Stmt) returns (r: Stmt)
      requires CallsFit(s)
      modifies this
      ensures (r, nextName) == InlineAll(shouldInline, s, old(nextName))
      decreases s
    {
      match s
      case Block(first, rest) =>
        var f := Rewrite(first);
        var b := Rewrite(rest);
        r := Block(f, b);
      case Scope(scoped) =>
        var b := Rewrite(scoped);
        r := Scope(b);
      case IfThenElse(c, t, e) =>
        var t' := Rewrite(t);
        var e' := Rewrite(e);
        r := IfThenElse(c, t', e');
      case ForRange(v, start, end, body) =>
        var b := Rewrite(body);
        r := ForRange(v, start, end, b);
      case While(c, body) =>
        var b := Rewrite(body);
        r := While(c, b);
      case CallStmt(_, _, _) => r := VisitCall(s);
      case _ => r := s;
    }
  }

  lemma InlineArgsNext(s: Stmt, args: seq<Var>, actuals: seq<Expr>)
    requires |args| == |actuals| && args != []
    ensures InlineArgs(s, args, actuals) ==
            InlineArgs(ReplaceVarByExpr(s, args[0], actuals[0]), args[1..], actuals[1..])
  {
  }

  lemma InlineArgsDone(s: Stmt, args: seq<Var>, actuals: seq<Expr>)
    requires |args| == |actuals| == 0
    ensures InlineArgs(s, args, actuals) == s
  {
  }

  lemma InlineResultsNext(s: Stmt, results: seq<Var>, targets: seq<Var>, referenced: set<Var>, next: Var)
    requires |results| == |targets| && results != []
    ensures var (first, n) := InlineResult(s, results[0], targets[0], targets[0] in referenced, next);
            InlineResults(s, results, targets, referenced, next) ==
              InlineResults(first, results[1..], targets[1..], referenced, n)
  {
  }

  lemma InlineResultsDone(s: Stmt, results: seq<Var>, targets: seq<Var>, referenced: set<Var>, next: Var)
    requires |results| == |targets| == 0
    ensures InlineResults(s, results, targets, referenced, next) == (s, next)
  {
  }
}
