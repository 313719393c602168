/** Path expressions: two-place formulas over the elements of a graph, with the comparison that
    serves as the key of the index builder's memo table.
 */
module PathExpressions {
  import opened Wrappers

  /** The identity of a set, of a stencil layout and of a variable is the object's address. */
  type SetId = nat
  type StencilId = nat
  datatype Var = Var(id: nat, home: SetId)

  datatype LinkType = EV | VE | VV
  datatype Op = AndOp | OrOp

  /** A link, a connective of two operands over two free variables and at most one existentially
      quantified one, or an expression under new names. */
  datatype PathExpr =
    | Link(kind: LinkType, lhs: Var, rhs: Var, stencil: Option<StencilId>)
    | Connective(op: Op, f0: Var, f1: Var, qvar: Option<Var>, l: PathExpr, r: PathExpr)
    | Renamed(pe: PathExpr, v0: Var, v1: Var)

  /** getPathEndpoint; a renaming maps the endpoint variables, the first one winning. */
  function Endpoint(pe: PathExpr, i: nat): (v: Var)
    requires i < 2
  {
    match pe
    case Link(_, x, y, _) => if i == 0 then x else y
    case Connective(_, f0, f1, _, _, _) => if i == 0 then f0 else f1
    case Renamed(e, v0, v1) => if i == 0 || Endpoint(e, 0) == Endpoint(e, 1) then v0 else v1
  }

  /** An expression and everything it is made of. */
  function Parts(pe: PathExpr): (r: set<PathExpr>)
    ensures pe in r
  {
    {pe} +
    match pe
    case Link(_, _, _, _) => {}
    case Connective(_, _, _, _, l, r) => Parts(l) + Parts(r)
    case Renamed(e, _, _) => Parts(e)
  }

  lemma {:induction false} PartsOfParts(pe: PathExpr, e: PathExpr)
    requires e in Parts(pe)
    ensures Parts(e) <= Parts(pe)
  {
    if e != pe {
      match pe
      case Connective(_, _, _, _, l, r) =>
        if e in Parts(l) { PartsOfParts(l, e); } else { PartsOfParts(r, e); }
      case Renamed(e', _, _) => PartsOfParts(e', e);
    }
  }

  // ---------- Comparison as the code does it ----------

  /** The outcome of a comparison.  Walking two lists of quantified variables of different
      lengths in step runs past the end of the shorter one: Undefined. */
  datatype Outcome = Yes | No | Undefined

  /** operator== */
  function Eq(a: PathExpr, b: PathExpr): (o: Outcome)
    decreases a, b
  {
    match (a, b)
    case (Renamed(x, _, _), Renamed(y, _, _)) => Eq(x, y)
    case (Renamed(x, _, _), _) => Eq(x, b)
    case (_, Renamed(y, _, _)) => Eq(a, y)
    case (Link(_, x0, x1, s), Link(_, y0, y1, t)) =>
      if x0.home == y0.home && x1.home == y1.home && s.Some? == t.Some? && (s.None? || s == t) then Yes else No
    case (Connective(op, _, _, p, l, r), Connective(op', _, _, q, l', r')) =>
      if op != op' then No
      else if p.Some? != q.Some? then Undefined
      else if Eq(l, l') != Yes then Eq(l, l')
      else Eq(r, r')
    case _ => No
  }

  /** The order of the dynamic types, whichever it is. */
  function TypeRank(pe: PathExpr): (r: nat)
  {
    match pe
    case Link(_, _, _, _) => 0
    case Connective(op, _, _, _, _, _) => if op.AndOp? then 1 else 2
    case Renamed(_, _, _) => 3
  }

  function FromBool(b: bool): (o: Outcome)
  {
    if b then Yes else No
  }

  function LinkLess(a: PathExpr, b: PathExpr): (r: bool)
    requires a.Link? && b.Link?
  {
    if a.stencil.None? && b.stencil.Some? then true
    else if a.stencil.Some? && b.stencil.None? then false
    else if a.stencil.Some? && b.stencil.Some? && a.stencil != b.stencil then a.stencil.value < b.stencil.value
    else if a.lhs.home != b.lhs.home then a.lhs.home < b.lhs.home
    else a.rhs.home < b.rhs.home
  }

  /** operator< */
  function Less(a: PathExpr, b: PathExpr): (o: Outcome)
    decreases a, b
  {
    match (a, b)
    case (Renamed(x, _, _), Renamed(y, _, _)) => Less(x, y)
    case (Renamed(x, _, _), _) => Less(x, b)
    case (_, Renamed(y, _, _)) => Less(a, y)
    case (Link(_, _, _, _), Link(_, _, _, _)) => FromBool(LinkLess(a, b))
    case (Connective(op, _, _, p, l, r), Connective(op', _, _, q, l', r')) =>
      if op != op' then FromBool(TypeRank(a) < TypeRank(b))
      else if Eq(l, l') == Undefined then Undefined
      else if Eq(l, l') == No then Less(l, l')
      else if Eq(r, r') == Undefined then Undefined
      else if Eq(r, r') == No then Less(r, r')
      else FromBool(p.None? && q.Some?)
    case _ => FromBool(TypeRank(a) < TypeRank(b))
  }

  // ---------- What the comparison means ----------

  /** The same expression up to names and link types: renamings dropped everywhere. */
  ghost predicate SameForm(a: PathExpr, b: PathExpr)
    decreases a, b
  {
    match (a, b)
    case (Renamed(x, _, _), _) => SameForm(x, b)
    case (_, Renamed(y, _, _)) => SameForm(a, y)
    case (Link(_, x0, x1, s), Link(_, y0, y1, t)) => x0.home == y0.home && x1.home == y1.home && s == t
    case (Connective(op, _, _, p, l, r), Connective(op', _, _, q, l', r')) =>
      op == op' && p.Some? == q.Some? && SameForm(l, l') && SameForm(r, r')
    case _ => false
  }

  /** The expression below all outer renamings. */
  function Core(a: PathExpr): (c: PathExpr)
    ensures !c.Renamed?
  {
    if a.Renamed? then Core(a.pe) else a
  }

  lemma {:induction false} SeesThroughRenaming(a: PathExpr, b: PathExpr)
    ensures Eq(a, b) == Eq(Core(a), Core(b))
    ensures Less(a, b) == Less(Core(a), Core(b))
    ensures SameForm(a, b) == SameForm(Core(a), Core(b))
    decreases a, b
  {
    if a.Renamed? && b.Renamed? {
      SeesThroughRenaming(a.pe, b.pe);
      SeesThroughRenaming(a.pe, b);
    } else if a.Renamed? {
      SeesThroughRenaming(a.pe, b);
    } else if b.Renamed? {
      SeesThroughRenaming(a, b.pe);
    }
  }

  /** Comparing for equality answers "yes" exactly for expressions of the same form. */
  lemma {:induction false} EqIsSameForm(a: PathExpr, b: PathExpr)
    ensures Eq(a, b) == Yes <==> SameForm(a, b)
    decreases a, b
  {
    SeesThroughRenaming(a, b);
    if a.Renamed? {
      EqIsSameForm(a.pe, b);
      SeesThroughRenaming(a.pe, b);
    } else if b.Renamed? {
      EqIsSameForm(a, b.pe);
      SeesThroughRenaming(a, b.pe);
    } else if a.Connective? && b.Connective? {
      EqIsSameForm(a.l, b.l);
      EqIsSameForm(a.r, b.r);
    }
  }

  /** A total comparison that agrees with Less wherever Less is defined: negative, zero or
      positive. */
  ghost function Order(a: PathExpr, b: PathExpr): (r: int)
    decreases a, b
  {
    match (a, b)
    case (Renamed(x, _, _), _) => Order(x, b)
    case (_, Renamed(y, _, _)) => Order(a, y)
    case (Link(_, _, _, _), Link(_, _, _, _)) =>
      if LinkLess(a, b) then -1 else if LinkLess(b, a) then 1 else 0
    case (Connective(op, _, _, p, l, r), Connective(op', _, _, q, l', r')) =>
      if op != op' then TypeRank(a) - TypeRank(b)
      else if Order(l, l') != 0 then Order(l, l')
      else if Order(r, r') != 0 then Order(r, r')
      else (if p.Some? then 1 else 0) - (if q.Some? then 1 else 0)
    case _ => TypeRank(a) - TypeRank(b)
  }

  lemma {:induction false} OrderOfCores(a: PathExpr, b: PathExpr)
    ensures Order(a, b) == Order(Core(a), Core(b))
    decreases a, b
  {
    if a.Renamed? {
      OrderOfCores(a.pe, b);
    } else if b.Renamed? {
      OrderOfCores(a, b.pe);
    }
  }

  lemma {:induction false} OrderZero(a: PathExpr, b: PathExpr)
    ensures Order(a, b) == 0 <==> SameForm(a, b)
    decreases a, b
  {
    if a.Renamed? {
      OrderZero(a.pe, b);
    } else if b.Renamed? {
      OrderZero(a, b.pe);
    } else if a.Connective? && b.Connective? {
      OrderZero(a.l, b.l);
      OrderZero(a.r, b.r);
    }
  }

  lemma {:induction false} OrderAntisymmetric(a: PathExpr, b: PathExpr)
    ensures Order(a, b) < 0 <==> Order(b, a) > 0
    ensures Order(a, b) > 0 <==> Order(b, a) < 0
    decreases a, b
  {
    OrderOfCores(a, b);
    OrderOfCores(b, a);
    if a.Renamed? {
      OrderAntisymmetric(a.pe, b);
      OrderOfCores(a.pe, b);
      OrderOfCores(b, a.pe);
    } else if b.Renamed? {
      OrderAntisymmetric(a, b.pe);
      OrderOfCores(a, b.pe);
      OrderOfCores(b.pe, a);
    } else if a.Connective? && b.Connective? {
      OrderAntisymmetric(a.l, b.l);
      OrderAntisymmetric(a.r, b.r);
    }
  }

  lemma {:induction false} OrderTransitive(a: PathExpr, b: PathExpr, c: PathExpr)
    requires Order(a, b) <= 0 && Order(b, c) <= 0
    ensures Order(a, c) <= 0
    ensures Order(a, b) < 0 || Order(b, c) < 0 ==> Order(a, c) < 0
    decreases a, b, c, 0
  {
    if a.Renamed? || b.Renamed? || c.Renamed? {
      OrderOfCores(a, b);
      OrderOfCores(b, c);
      OrderOfCores(a, c);
      CoreSmaller(a);
      CoreSmaller(b);
      CoreSmaller(c);
      OrderTransitive(Core(a), Core(b), Core(c));
    } else if a.Connective? && b.Connective? && c.Connective? && a.op == b.op == c.op {
      OperandsTransitive(a.l, b.l, c.l);
      OperandsTransitive(a.r, b.r, c.r);
    }
  }

  lemma {:induction false} OperandsTransitive(a: PathExpr, b: PathExpr, c: PathExpr)
    ensures Order(a, b) <= 0 && Order(b, c) <= 0 ==> Order(a, c) <= 0
    ensures Order(a, b) <= 0 && Order(b, c) <= 0 && (Order(a, b) < 0 || Order(b, c) < 0) ==> Order(a, c) < 0
    decreases a, b, c, 1
  {
    if Order(a, b) <= 0 && Order(b, c) <= 0 {
      OrderTransitive(a, b, c);
    }
  }

  lemma CoreSmaller(a: PathExpr)
    ensures Core(a) == a || Core(a) < a
  {
  }

  /** Where the code's comparison is defined it is Order. */
  lemma {:induction false} LessIsOrder(a: PathExpr, b: PathExpr)
    requires Less(a, b) != Undefined
    ensures Less(a, b) == Yes <==> Order(a, b) < 0
    decreases a, b
  {
    if a.Renamed? && b.Renamed? {
      LessIsOrder(a.pe, b.pe);
      OrderOfCores(a, b);
      OrderOfCores(a.pe, b.pe);
    } else if a.Renamed? {
      LessIsOrder(a.pe, b);
    } else if b.Renamed? {
      LessIsOrder(a, b.pe);
    } else if a.Connective? && b.Connective? && a.op == b.op {
      EqIsSameForm(a.l, b.l);
      OrderZero(a.l, b.l);
      EqIsSameForm(a.r, b.r);
      OrderZero(a.r, b.r);
      if Eq(a.l, b.l) == No {
        LessIsOrder(a.l, b.l);
      } else if Eq(a.r, b.r) == No {
        LessIsOrder(a.r, b.r);
      }
    }
  }

  // ---------- The key of the memo table ----------

  /** Two keys are the same to an ordered map when neither is less. */
  predicate SameKey(a: PathExpr, b: PathExpr) {
    Less(a, b) == No && Less(b, a) == No
  }

  /** Every comparison between members of the set is defined. */
  ghost predicate Comparable(es: set<PathExpr>) {
    forall a, b :: a in es && b in es ==> Less(a, b) != Undefined
  }

  /** On comparable expressions the key comparison is a strict weak order. */
  lemma StrictWeakOrder(es: set<PathExpr>, a: PathExpr, b: PathExpr, c: PathExpr)
    requires Comparable(es) && a in es && b in es && c in es
    ensures Less(a, a) == No
    ensures Less(a, b) == Yes ==> Less(b, a) == No
    ensures Less(a, b) == Yes && Less(b, c) == Yes ==> Less(a, c) == Yes
    ensures SameKey(a, b) && SameKey(b, c) ==> SameKey(a, c)
  {
    LessIsOrder(a, a); LessIsOrder(a, b); LessIsOrder(b, a); LessIsOrder(b, c); LessIsOrder(c, b);
    LessIsOrder(a, c); LessIsOrder(c, a);
    OrderAntisymmetric(a, a);
    OrderAntisymmetric(a, b);
    OrderAntisymmetric(b, c);
    OrderAntisymmetric(a, c);
    OperandsTransitive(a, b, c);
    OperandsTransitive(c, b, a);
  }

  /** Comparable expressions share a key exactly when they have the same form. */
  lemma SameKeyIsSameForm(a: PathExpr, b: PathExpr)
    requires Less(a, b) != Undefined && Less(b, a) != Undefined
    ensures SameKey(a, b) <==> SameForm(a, b)
  {
    LessIsOrder(a, b);
    LessIsOrder(b, a);
    OrderAntisymmetric(a, b);
    OrderZero(a, b);
  }

  /** When the comparison of two connectives is defined: it meets no pair of operands of the same
      kind, in the same place, of which only one is quantified. */
  ghost predicate Agree(a: PathExpr, b: PathExpr)
    decreases a, b
  {
    match (a, b)
    case (Renamed(x, _, _), _) => Agree(x, b)
    case (_, Renamed(y, _, _)) => Agree(a, y)
    case (Connective(op, _, _, p, l, r), Connective(op', _, _, q, l', r')) =>
      op == op' ==> p.Some? == q.Some? && Agree(l, l') && (SameForm(l, l') ==> Agree(r, r'))
    case _ => true
  }

  lemma {:induction false} EqDefined(a: PathExpr, b: PathExpr)
    ensures Eq(a, b) != Undefined <==> Agree(a, b)
    decreases a, b
  {
    if a.Renamed? && b.Renamed? {
      EqDefined(a.pe, b.pe);
      AgreeOfCores(a, b);
      AgreeOfCores(a.pe, b.pe);
    } else if a.Renamed? {
      EqDefined(a.pe, b);
    } else if b.Renamed? {
      EqDefined(a, b.pe);
    } else if a.Connective? && b.Connective? {
      EqDefined(a.l, b.l);
      EqDefined(a.r, b.r);
      EqIsSameForm(a.l, b.l);
    }
  }

  lemma {:induction false} AgreeOfCores(a: PathExpr, b: PathExpr)
    ensures Agree(a, b) == Agree(Core(a), Core(b))
    decreases a, b
  {
    if a.Renamed? {
      AgreeOfCores(a.pe, b);
    } else if b.Renamed? {
      AgreeOfCores(a, b.pe);
    }
  }

  /** The key comparison is defined if and only if the operands compared on the way agree. */
  lemma LessDefined(a: PathExpr, b: PathExpr)
    ensures Less(a, b) != Undefined <==>
            (Core(a).Connective? && Core(b).Connective? && Core(a).op == Core(b).op ==>
               Agree(Core(a).l, Core(b).l) && (SameForm(Core(a).l, Core(b).l) ==> Agree(Core(a).r, Core(b).r)))
  {
    SeesThroughRenaming(a, b);
    var x, y := Core(a), Core(b);
    if x.Connective? && y.Connective? && x.op == y.op {
      EqDefined(x.l, y.l);
      EqDefined(x.r, y.r);
      EqIsSameForm(x.l, y.l);
      EqMeansLessDefined(x.l, y.l);
      EqMeansLessDefined(x.r, y.r);
    }
  }

  lemma {:induction false} EqMeansLessDefined(a: PathExpr, b: PathExpr)
    ensures Eq(a, b) != Undefined ==> Less(a, b) != Undefined
    decreases a, b
  {
    if a.Renamed? && b.Renamed? {
      EqMeansLessDefined(a.pe, b.pe);
    } else if a.Renamed? {
      EqMeansLessDefined(a.pe, b);
    } else if b.Renamed? {
      EqMeansLessDefined(a, b.pe);
    } else if a.Connective? && b.Connective? {
      EqMeansLessDefined(a.l, b.l);
      EqMeansLessDefined(a.r, b.r);
    }
  }

  /** Two legitimate keys the code cannot compare: a union whose first operand is an intersection
      in one and a composition in the other. */
  lemma IncomparableKeys(v: Var, w: Var, q: Var, s: StencilId)
    ensures var a := Link(VV, v, w, Some(s));
            var both := Connective(AndOp, v, w, None, a, a);
            var path := Connective(AndOp, v, w, Some(q), Renamed(a, v, q), Renamed(a, q, w));
            && Less(both, path) == Yes
            && Less(Connective(OrOp, v, w, None, both, a), Connective(OrOp, v, w, None, path, a)) == Undefined
  {
    var a := Link(VV, v, w, Some(s));
    assert Eq(a, a) == Yes;
    assert Eq(a, Renamed(a, v, q)) == Eq(a, a);
    assert Eq(a, Renamed(a, q, w)) == Eq(a, a);
  }
}
