/** Syntactic equality up to and/or structure, and the elimination of common
    operands it rests on: __expr_eliminate_eq, expr_eliminate_eq, expr_eq and
    expr_eliminate_yn of scripts/kconfig/expr.c. */
module ExprEquality {
  import opened Exprs

  // ----- what the in-place procedures compute -----

  /** expr_eliminate_yn: drop constants from and/or nodes, bottom up. */
  function Yn(e: Expr): (r: Expr)
    ensures Size(r) <= Size(e)
  {
    match e
    case Bin(t, l, r) =>
      var l', r' := Yn(l), Yn(r);
      if l' == Absorber(t) then Absorber(t)
      else if l' == Neutral(t) then r'
      else if r' == Absorber(t) then Absorber(t)
      else if r' == Neutral(t) then l'
      else Bin(t, l', r')
    case _ => e
  }

  predicate SameConstant(e1: Expr, e2: Expr) {
    e1.Sym? && e2.Sym? && e1.sym == e2.sym && (e1.sym == SYM_YES || e1.sym == SYM_NO)
  }

  /** __expr_eliminate_eq(t, ep1, ep2): both reduced operands. */
  function ElimEq(t: Junction, e1: Expr, e2: Expr): (r: (Expr, Expr))
    ensures Size(r.0) <= Size(e1) && Size(r.1) <= Size(e2)
    decreases Size(e1) + Size(e2), if IsOp(t, e1) || IsOp(t, e2) then 0 else 3
  {
    if IsOp(t, e1) then
      var a := ElimEq(t, e1.left, e2);
      var b := ElimEq(t, e1.right, a.1);
      (Bin(t, a.0, b.0), b.1)
    else if IsOp(t, e2) then
      var a := ElimEq(t, e1, e2.left);
      var b := ElimEq(t, a.0, e2.right);
      (b.0, Bin(t, a.1, b.1))
    else if SameConstant(e1, e2) || !ExprEq(e1, e2) then (e1, e2)
    else (Neutral(t), Neutral(t))
  }

  /** expr_eliminate_eq(ep1, ep2) on non-NULL operands. */
  function EliminateEq(e1: Expr, e2: Expr): (r: (Expr, Expr))
    ensures Size(r.0) <= Size(e1) && Size(r.1) <= Size(e2)
    decreases Size(e1) + Size(e2), 1
  {
    var a := if e1.Bin? then ElimEq(e1.op, e1, e2) else (e1, e2);
    var b := if a.1.Bin? && !IsOp(a.1.op, a.0) then ElimEq(a.1.op, a.0, a.1) else a;
    (Yn(b.0), Yn(b.1))
  }

  /** expr_eq(e1, e2) */
  predicate ExprEq(e1: Expr, e2: Expr)
    decreases Size(e1) + Size(e2), 2
  {
    match (e1, e2)
    case (Cmp(r1, a1, b1), Cmp(r2, a2, b2)) => r1 == r2 && a1 == a2 && b1 == b2
    case (Sym(s1), Sym(s2)) => s1 == s2
    case (Not(a1), Not(a2)) => ExprEq(a1, a2)
    case (Bin(t1, _, _), Bin(t2, _, _)) =>
      t1 == t2 &&
      var r := EliminateEq(e1, e2);
      r.0.Sym? && r.1.Sym? && r.0.sym == r.1.sym
    case _ => false
  }

  // ----- what they mean -----

  lemma {:induction false} YnSound(e: Expr, v: Valuation)
    requires WellFormed(v)
    ensures Eval(Yn(e), v) == Eval(e, v)
  {
    assert SymOk(SYM_YES, v(SYM_YES)) && SymOk(SYM_NO, v(SYM_NO));
    match e
    case Bin(_, l, r) => YnSound(l, v); YnSound(r, v);
    case _ =>
  }

  /** A constant directly below an and/or node that expr_eliminate_yn visits. */
  predicate HasConstantOperand(e: Expr) {
    e.Bin? &&
    (e.left in {Neutral(e.op), Absorber(e.op)} || e.right in {Neutral(e.op), Absorber(e.op)}
     || HasConstantOperand(e.left) || HasConstantOperand(e.right))
  }

  /** expr_eliminate_yn leaves no constant operand, changes exactly the trees
      that have one, and shrinks those. */
  lemma {:induction false} YnRemovesConstants(e: Expr)
    ensures !HasConstantOperand(Yn(e))
    ensures HasConstantOperand(e) ==> Size(Yn(e)) < Size(e)
    ensures !HasConstantOperand(e) ==> Yn(e) == e
  {
    match e
    case Bin(_, l, r) => YnRemovesConstants(l); YnRemovesConstants(r);
    case _ =>
  }

  /** c1 factored out of one part, then c2 out of the other. */
  lemma FactorMerge(t: Junction, a0: Tristate, a1: Tristate, b0: Tristate, b1: Tristate, c1: Tristate, c2: Tristate)
    requires a1 == Apply(t, b1, c2)
    ensures Apply(t, Apply(t, a0, c1), Apply(t, b0, c2)) == Apply(t, Apply(t, a0, b0), Apply(t, c2, c1))
    ensures Apply(t, a1, c1) == Apply(t, b1, Apply(t, c2, c1))
  {
  }

  /** The factored-out common part: e1 and e2 each equal their reduced form
      joined with one and the same value c. */
  lemma {:induction false} ElimEqFactors(t: Junction, e1: Expr, e2: Expr, v: Valuation) returns (c: Tristate)
    requires WellFormed(v)
    ensures var r := ElimEq(t, e1, e2);
            Eval(e1, v) == Apply(t, Eval(r.0, v), c) && Eval(e2, v) == Apply(t, Eval(r.1, v), c)
    decreases Size(e1) + Size(e2), if IsOp(t, e1) || IsOp(t, e2) then 0 else 3
  {
    assert SymOk(SYM_YES, v(SYM_YES)) && SymOk(SYM_NO, v(SYM_NO));
    if IsOp(t, e1) {
      var a := ElimEq(t, e1.left, e2);
      var b := ElimEq(t, e1.right, a.1);
      var c1 := ElimEqFactors(t, e1.left, e2, v);
      var c2 := ElimEqFactors(t, e1.right, a.1, v);
      c := Apply(t, c2, c1);
      FactorMerge(t, Eval(a.0, v), Eval(a.1, v), Eval(b.0, v), Eval(b.1, v), c1, c2);
    } else if IsOp(t, e2) {
      var a := ElimEq(t, e1, e2.left);
      var b := ElimEq(t, a.0, e2.right);
      var c1 := ElimEqFactors(t, e1, e2.left, v);
      var c2 := ElimEqFactors(t, a.0, e2.right, v);
      c := Apply(t, c2, c1);
      FactorMerge(t, Eval(a.1, v), Eval(a.0, v), Eval(b.1, v), Eval(b.0, v), c1, c2);
    } else if SameConstant(e1, e2) || !ExprEq(e1, e2) {
      c := Eval(Neutral(t), v);
    } else {
      ExprEqSound(e1, e2, v);
      c := Eval(e1, v);
    }
  }

  /** expr_eliminate_eq reflects order, even when an and-pass and an or-pass both run. */
  lemma {:induction false} EliminateEqReflectsOrder(e1: Expr, e2: Expr, v: Valuation)
    requires WellFormed(v)
    ensures var r := EliminateEq(e1, e2); Eval(r.0, v) <= Eval(r.1, v) ==> Eval(e1, v) <= Eval(e2, v)
    decreases Size(e1) + Size(e2), 1
  {
    var a := if e1.Bin? then ElimEq(e1.op, e1, e2) else (e1, e2);
    if e1.Bin? { PassReflectsOrder(e1.op, e1, e2, v); }
    var b := if a.1.Bin? && !IsOp(a.1.op, a.0) then ElimEq(a.1.op, a.0, a.1) else a;
    if a.1.Bin? && !IsOp(a.1.op, a.0) { PassReflectsOrder(a.1.op, a.0, a.1, v); }
    YnSound(b.0, v);
    YnSound(b.1, v);
  }

  /** One pass. */
  lemma {:induction false} PassReflectsOrder(t: Junction, e1: Expr, e2: Expr, v: Valuation)
    requires WellFormed(v)
    ensures var r := ElimEq(t, e1, e2); Eval(r.0, v) <= Eval(r.1, v) ==> Eval(e1, v) <= Eval(e2, v)
    decreases Size(e1) + Size(e2), 4
  {
    var c := ElimEqFactors(t, e1, e2, v);
  }

  /** expr_eq is sound: expressions it calls equal have the same value. */
  lemma {:induction false} ExprEqSound(e1: Expr, e2: Expr, v: Valuation)
    requires WellFormed(v) && ExprEq(e1, e2)
    ensures Eval(e1, v) == Eval(e2, v)
    decreases Size(e1) + Size(e2), 2
  {
    if e1.Not? {
      ExprEqSound(e1.arg, e2.arg, v);
    } else if e1.Bin? {
      var a := ElimEq(e1.op, e1, e2);
      ElimEqKeepsTop(e1.op, e1, e2);
      var c := ElimEqFactors(e1.op, e1, e2, v);
      YnSound(a.0, v);
      YnSound(a.1, v);
    }
  }

  /** The node type of either operand survives when it is the type being eliminated. */
  lemma {:induction false} ElimEqKeepsTop(t: Junction, e1: Expr, e2: Expr)
    requires IsOp(t, e2)
    ensures IsOp(t, ElimEq(t, e1, e2).1)
    decreases e1
  {
    if IsOp(t, e1) {
      ElimEqKeepsTop(t, e1.left, e2);
      ElimEqKeepsTop(t, e1.right, ElimEq(t, e1.left, e2).1);
    }
  }

  // ----- what is eliminated -----

  predicate YesOrNo(e: Expr) { e == Sym(SYM_YES) || e == Sym(SYM_NO) }

  /** A spine with y and n as its only leaves: nothing in it is ever eliminated. */
  predicate Blank(t: Junction, e: Expr) {
    if IsOp(t, e) then Blank(t, e.left) && Blank(t, e.right) else YesOrNo(e)
  }

  /** e with all leaves of its spine eliminated; y and n stay. */
  function Blanked(t: Junction, e: Expr): (r: Expr)
    ensures Blank(t, r) && IsOp(t, r) == IsOp(t, e)
  {
    if IsOp(t, e) then Bin(t, Blanked(t, e.left), Blanked(t, e.right)) else if YesOrNo(e) then e else Neutral(t)
  }

  /** On the spine e, p leads to a part with nothing but y and n on its left. */
  predicate LeftBlank(t: Junction, e: Expr, p: Path)
    decreases p
  {
    p == [] ||
    (IsOp(t, e) &&
     if p[0] == L then LeftBlank(t, e.left, p[1..]) else Blank(t, e.left) && LeftBlank(t, e.right, p[1..]))
  }

  lemma {:induction false} LeftBlankValid(t: Junction, e: Expr, p: Path)
    requires LeftBlank(t, e, p)
    ensures ValidPath(e, p) && Size(At(e, p)) <= Size(e)
    decreases p
  {
    if p != [] { LeftBlankValid(t, if p[0] == L then e.left else e.right, p[1..]); }
  }

  lemma {:induction false} LeftBlankChildren(t: Junction, e: Expr, p: Path, x: Expr)
    requires LeftBlank(t, e, p) && ValidPath(e, p) && IsOp(t, At(e, p)) && Blank(t, x)
    ensures LeftBlank(t, e, p + [L]) && ValidPath(e, p + [L])
    ensures LeftBlank(t, Put(e, p + [L], x), p + [R]) && ValidPath(Put(e, p + [L], x), p + [R])
    ensures At(e, p + [L]) == At(e, p).left && At(Put(e, p + [L], x), p + [R]) == At(e, p).right
    ensures forall y :: Put(Put(e, p + [L], x), p + [R], y) == Put(e, p, Bin(t, x, y))
    decreases p
  {
    if p == [] {
      assert p + [L] == [L] && p + [R] == [R] && [L][1..] == [] && [R][1..] == [];
    } else {
      assert (p + [L])[1..] == p[1..] + [L] && (p + [R])[1..] == p[1..] + [R];
      LeftBlankChildren(t, if p[0] == L then e.left else e.right, p[1..], x);
    }
  }

  /** y and n are never eliminated, and nothing is eliminated against them. */
  lemma {:induction false} BlankStays(t: Junction, e1: Expr, e2: Expr)
    requires (YesOrNo(e1) && !IsOp(t, e1)) || (!IsOp(t, e1) && Blank(t, e2))
    ensures ElimEq(t, e1, e2) == (e1, e2)
    decreases e2
  {
    if IsOp(t, e2) {
      BlankStays(t, e1, e2.left);
      BlankStays(t, e1, e2.right);
    }
  }

  /** A leaf finds itself. */
  lemma {:induction false} LeafEliminated(t: Junction, x: Expr, e: Expr, p: Path)
    requires LeftBlank(t, e, p) && ValidPath(e, p) && At(e, p) == x && !IsOp(t, x) && ExprEq(x, x)
    ensures ElimEq(t, x, e) == (Blanked(t, x), Put(e, p, Blanked(t, x)))
    decreases p
  {
    if p != [] {
      if p[0] == L {
        LeafEliminated(t, x, e.left, p[1..]);
        BlankStays(t, Blanked(t, x), e.right);
      } else {
        BlankStays(t, x, e.left);
        LeafEliminated(t, x, e.right, p[1..]);
      }
    }
  }

  /** A part of a spine finds itself, leaf by leaf. */
  lemma {:induction false} PartEliminated(t: Junction, x: Expr, e: Expr, p: Path)
    requires LeftBlank(t, e, p) && ValidPath(e, p) && At(e, p) == x
    ensures ElimEq(t, x, e) == (Blanked(t, x), Put(e, p, Blanked(t, x)))
    decreases Size(x), 1
  {
    if IsOp(t, x) {
      var l, r := Blanked(t, x.left), Blanked(t, x.right);
      LeftBlankChildren(t, e, p, l);
      PartEliminated(t, x.left, e, p + [L]);
      PartEliminated(t, x.right, Put(e, p + [L], l), p + [R]);
    } else {
      ExprEqReflexive(x);
      LeafEliminated(t, x, e, p);
    }
  }

  lemma {:induction false} BlankFolds(t: Junction, e: Expr)
    requires Blank(t, e)
    ensures YesOrNo(Yn(e))
  {
    if IsOp(t, e) { BlankFolds(t, e.left); BlankFolds(t, e.right); }
  }

  /** expr_eq finds every expression equal to itself. */
  lemma {:induction false} ExprEqReflexive(e: Expr)
    ensures ExprEq(e, e)
    decreases Size(e), 0
  {
    match e
    case Not(a) => ExprEqReflexive(a);
    case Bin(t, l, r) =>
      var l', r' := Blanked(t, l), Blanked(t, r);
      LeftBlankChildren(t, e, [], l');
      assert [] + [L] == [L] && [] + [R] == [R];
      PartEliminated(t, l, e, [L]);
      PartEliminated(t, r, Put(e, [L], l'), [R]);
      BlankFolds(t, Bin(t, l', r'));
    case _ =>
  }

  /** No leaf of the t-spine e1 is equal to one of e2, constants y and n excepted. */
  predicate Apart(t: Junction, e1: Expr, e2: Expr)
    decreases e1, e2
  {
    if IsOp(t, e1) then Apart(t, e1.left, e2) && Apart(t, e1.right, e2)
    else if IsOp(t, e2) then Apart(t, e1, e2.left) && Apart(t, e1, e2.right)
    else (YesOrNo(e1) && e1 == e2) || !ExprEq(e1, e2)
  }

  /** e' is the t-spine e with some leaves replaced by the neutral constant. */
  predicate Thinned(t: Junction, e: Expr, e': Expr) {
    if IsOp(t, e) then IsOp(t, e') && Thinned(t, e.left, e'.left) && Thinned(t, e.right, e'.right)
    else e' == e || e' == Neutral(t)
  }

  lemma {:induction false} ThinnedTrans(t: Junction, a: Expr, b: Expr, c: Expr)
    requires Thinned(t, a, b) && Thinned(t, b, c)
    ensures Thinned(t, a, c)
  {
    if IsOp(t, a) {
      ThinnedTrans(t, a.left, b.left, c.left);
      ThinnedTrans(t, a.right, b.right, c.right);
    }
  }

  lemma {:induction false} ThinnedSelf(t: Junction, e: Expr)
    ensures Thinned(t, e, e)
  {
    if IsOp(t, e) { ThinnedSelf(t, e.left); ThinnedSelf(t, e.right); }
  }

  lemma {:induction false} ApartThinned(t: Junction, e1: Expr, e2: Expr, e1': Expr, e2': Expr)
    requires Apart(t, e1, e2) && Thinned(t, e1, e1') && Thinned(t, e2, e2')
    ensures Apart(t, e1', e2')
    decreases e1, e2
  {
    if IsOp(t, e1) {
      ApartThinned(t, e1.left, e2, e1'.left, e2');
      ApartThinned(t, e1.right, e2, e1'.right, e2');
    } else if IsOp(t, e2) {
      ApartThinned(t, e1, e2.left, e1', e2'.left);
      ApartThinned(t, e1, e2.right, e1', e2'.right);
    }
  }

  /** __expr_eliminate_eq replaces leaves by the neutral constant, and goes on until the
      two spines have none in common. */
  lemma {:induction false} ElimEqExhausts(t: Junction, e1: Expr, e2: Expr)
    ensures var r := ElimEq(t, e1, e2); Thinned(t, e1, r.0) && Thinned(t, e2, r.1) && Apart(t, r.0, r.1)
    decreases Size(e1) + Size(e2)
  {
    ThinnedSelf(t, e1);
    ThinnedSelf(t, e2);
    if IsOp(t, e1) {
      var a := ElimEq(t, e1.left, e2);
      var b := ElimEq(t, e1.right, a.1);
      ElimEqExhausts(t, e1.left, e2);
      ElimEqExhausts(t, e1.right, a.1);
      ThinnedSelf(t, a.0);
      ApartThinned(t, a.0, a.1, a.0, b.1);
      ThinnedTrans(t, e2, a.1, b.1);
    } else if IsOp(t, e2) {
      var a := ElimEq(t, e1, e2.left);
      var b := ElimEq(t, a.0, e2.right);
      ElimEqExhausts(t, e1, e2.left);
      ElimEqExhausts(t, a.0, e2.right);
      ThinnedSelf(t, a.1);
      ApartThinned(t, a.0, a.1, b.0, a.1);
      ThinnedTrans(t, e1, a.0, b.0);
    }
  }

  /** A leaf against a spine whose blank part it skips: the part it finds, thinned before,
      comes out blank. */
  lemma {:induction false} LeafCleared(t: Junction, x: Expr, e: Expr, p: Path)
    requires LeftBlank(t, e, p) && ValidPath(e, p) && !IsOp(t, x) && (At(e, p) == x || At(e, p) == Neutral(t))
    ensures var r := ElimEq(t, x, e).1;
            LeftBlank(t, r, p) && ValidPath(r, p) && Blank(t, At(r, p)) && Thinned(t, e, r)
    decreases p
  {
    if p == [] {
      ExprEqReflexive(x);
    } else if p[0] == L {
      LeafCleared(t, x, e.left, p[1..]);
      ElimEqExhausts(t, ElimEq(t, x, e.left).0, e.right);
    } else {
      BlankStays(t, x, e.left);
      ThinnedSelf(t, e.left);
      LeafCleared(t, x, e.right, p[1..]);
    }
  }

  lemma {:induction false} LeftBlankNext(t: Junction, e: Expr, p: Path)
    requires LeftBlank(t, e, p + [L]) && ValidPath(e, p + [L]) && Blank(t, At(e, p + [L]))
    ensures LeftBlank(t, e, p) && ValidPath(e, p) && IsOp(t, At(e, p)) && At(e, p + [L]) == At(e, p).left
    ensures LeftBlank(t, e, p + [R]) && ValidPath(e, p + [R]) && At(e, p + [R]) == At(e, p).right
    decreases p
  {
    if p == [] {
      assert p + [L] == [L] && p + [R] == [R] && [L][1..] == [] && [R][1..] == [];
    } else {
      assert (p + [L])[1..] == p[1..] + [L] && (p + [R])[1..] == p[1..] + [R];
      LeftBlankNext(t, if p[0] == L then e.left else e.right, p[1..]);
    }
  }

  lemma {:induction false} ThinnedAt(t: Junction, e: Expr, e': Expr, p: Path)
    requires Thinned(t, e, e') && LeftBlank(t, e, p)
    ensures ValidPath(e, p) && ValidPath(e', p) && Thinned(t, At(e, p), At(e', p))
    decreases p
  {
    if p != [] {
      ThinnedAt(t, if p[0] == L then e.left else e.right, if p[0] == L then e'.left else e'.right, p[1..]);
    }
  }

  lemma {:induction false} BlankThinned(t: Junction, e: Expr, e': Expr)
    requires Blank(t, e) && Thinned(t, e, e')
    ensures Blank(t, e')
  {
    if IsOp(t, e) { BlankThinned(t, e.left, e'.left); BlankThinned(t, e.right, e'.right); }
  }

  lemma LeftBlankThinned(t: Junction, e: Expr, e': Expr, p: Path)
    requires LeftBlank(t, e, p + [L]) && Thinned(t, e, e') && LeftBlank(t, e', p + [L])
    requires ValidPath(e, p + [L]) && ValidPath(e', p + [L]) && Blank(t, At(e', p + [L]))
    requires ValidPath(e, p) && IsOp(t, At(e, p)) && LeftBlank(t, e, p)
    ensures LeftBlank(t, e', p) && ValidPath(e', p) && IsOp(t, At(e', p))
    ensures LeftBlank(t, e', p + [R]) && ValidPath(e', p + [R])
    ensures At(e', p + [L]) == At(e', p).left && At(e', p + [R]) == At(e', p).right
    ensures Thinned(t, At(e, p).right, At(e', p).right)
  {
    LeftBlankNext(t, e', p);
    ThinnedAt(t, e, e', p);
  }

  /** A whole part x of a spine against a spine that holds it, possibly thinned before. */
  lemma {:induction false} PartCleared(t: Junction, x: Expr, e: Expr, p: Path)
    requires LeftBlank(t, e, p) && ValidPath(e, p) && Thinned(t, x, At(e, p))
    ensures var r := ElimEq(t, x, e).1;
            LeftBlank(t, r, p) && ValidPath(r, p) && Blank(t, At(r, p)) && Thinned(t, e, r)
    decreases x
  {
    if IsOp(t, x) {
      LeftBlankChildren(t, e, p, Neutral(t));
      var a := ElimEq(t, x.left, e).1;
      PartCleared(t, x.left, e, p + [L]);
      LeftBlankThinned(t, e, a, p);
      ThinnedTrans(t, x.right, At(e, p).right, At(a, p).right);
      PartCleared(t, x.right, a, p + [R]);
      ThinnedTrans(t, e, a, ElimEq(t, x.right, a).1);
      PartWhole(t, a, ElimEq(t, x.right, a).1, p);
    } else {
      LeafCleared(t, x, e, p);
    }
  }

  lemma {:induction false} PartWhole(t: Junction, a: Expr, b: Expr, p: Path)
    requires Thinned(t, a, b) && ValidPath(a, p) && IsOp(t, At(a, p)) && Blank(t, At(a, p).left)
    requires LeftBlank(t, b, p + [R]) && ValidPath(b, p + [R]) && Blank(t, At(b, p + [R]))
    requires LeftBlank(t, a, p)
    ensures LeftBlank(t, b, p) && ValidPath(b, p) && Blank(t, At(b, p))
    decreases p
  {
    if p == [] {
      assert p + [R] == [R] && [R][1..] == [] && At(b, [R]) == b.right;
      BlankThinned(t, a.left, b.left);
    } else {
      assert (p + [R])[1..] == p[1..] + [R];
      if p[0] == L { PartWhole(t, a.left, b.left, p[1..]); } else { PartWhole(t, a.right, b.right, p[1..]); }
    }
  }

  /** No leaf of the spine is the constant that absorbs all others. */
  predicate NotAbsorbed(t: Junction, e: Expr) {
    if IsOp(t, e) then NotAbsorbed(t, e.left) && NotAbsorbed(t, e.right) else e != Absorber(t)
  }

  lemma {:induction false} BlankNeutral(t: Junction, e: Expr, r: Expr)
    requires NotAbsorbed(t, e) && Thinned(t, e, r) && Blank(t, r)
    ensures Yn(r) == Neutral(t)
  {
    if IsOp(t, e) { BlankNeutral(t, e.left, r.left); BlankNeutral(t, e.right, r.right); }
  }

  /** expr_eliminate_eq of "x and p", in either order, with p leaves y of p, unless n is
      an operand of p. */
  lemma EliminateEqComplete(x: Expr, p: Expr)
    requires NotAbsorbed(Conj, p)
    ensures EliminateEq(Bin(Conj, x, p), p).1 == Sym(SYM_YES)
    ensures EliminateEq(Bin(Conj, p, x), p).1 == Sym(SYM_YES)
  {
    ConjFirst(x, p);
    ConjSecond(x, p);
  }

  lemma ConjFirst(x: Expr, p: Expr)
    requires NotAbsorbed(Conj, p)
    ensures EliminateEq(Bin(Conj, x, p), p).1 == Sym(SYM_YES)
  {
    var a := ElimEq(Conj, x, p).1;
    ElimEqExhausts(Conj, x, p);
    PartCleared(Conj, p, a, []);
    var b := ElimEq(Conj, p, a).1;
    ThinnedTrans(Conj, p, a, b);
    BlankNeutral(Conj, p, b);
    assert ElimEq(Conj, Bin(Conj, x, p), p).1 == b;
  }

  lemma ConjSecond(x: Expr, p: Expr)
    requires NotAbsorbed(Conj, p)
    ensures EliminateEq(Bin(Conj, p, x), p).1 == Sym(SYM_YES)
  {
    var a := ElimEq(Conj, p, p).1;
    ThinnedSelf(Conj, p);
    PartCleared(Conj, p, p, []);
    var b := ElimEq(Conj, x, a).1;
    ElimEqExhausts(Conj, x, a);
    ThinnedTrans(Conj, p, a, b);
    BlankThinned(Conj, a, b);
    BlankNeutral(Conj, p, b);
    assert ElimEq(Conj, Bin(Conj, p, x), p).1 == b;
  }

  // ----- the procedures themselves -----

  /** The file-level state of expr.c: the global trans_count. */
  class Rewriter {
    var transCount: nat

    constructor ()
      ensures transCount == 0
    {
      transCount := 0;
    }

    /** e = expr_eliminate_yn(e), where the tree hangs in slot p of tree. */
    method EliminateYn(tree: ExprTree, p: Path)
      requires ValidPath(tree.root, p)
      modifies tree
      ensures tree.root == Put(old(tree.root), p, Yn(old(At(tree.root, p))))
      decreases At(tree.root, p)
    {
      ghost var was := tree.root;
      var e := At(tree.root, p);
      PutAt(was, p, e);
      if e.Bin? {
        ChildSlots(was, p);
        EliminateYn(tree, p + [L]);
        PutPut(was, p, Bin(e.op, Yn(e.left), e.right));
        ChildSlots(tree.root, p);
        EliminateYn(tree, p + [R]);
        PutPut(was, p, Bin(e.op, Yn(e.left), Yn(e.right)));
        e := At(tree.root, p);
        if e.left.Sym? {
          if e.left == Absorber(e.op) {
            tree.root := Put(tree.root, p, Absorber(e.op));
            return;
          } else if e.left == Neutral(e.op) {
            tree.root := Put(tree.root, p, e.right);
            return;
          }
        }
        if e.right.Sym? {
          if e.right == Absorber(e.op) {
            tree.root := Put(tree.root, p, Absorber(e.op));
            return;
          } else if e.right == Neutral(e.op) {
            tree.root := Put(tree.root, p, e.left);
            return;
          }
        }
      }
    }

    /** The two operands of the first tree, one after the other. */
    method EliminateInFirst(t: Junction, t1: ExprTree, p1: Path, t2: ExprTree, p2: Path)
      requires t1 != t2 && ValidPath(t1.root, p1) && ValidPath(t2.root, p2) && IsOp(t, At(t1.root, p1))
      modifies t1, t2, this`transCount
      ensures var r := old(ElimEq(t, At(t1.root, p1), At(t2.root, p2)));
              t1.root == Put(old(t1.root), p1, r.0) && t2.root == Put(old(t2.root), p2, r.1)
      ensures old(transCount) <= transCount
      decreases Size(At(t1.root, p1)) + Size(At(t2.root, p2)), 0, 0
    {
      ghost var was1, was2, e1, e2 := t1.root, t2.root, At(t1.root, p1), At(t2.root, p2);
      ChildSlots(was1, p1);
      ghost var a := ElimEq(t, e1.left, e2);
      EliminateEqAt(t, t1, p1 + [L], t2, p2);
      PutPut(was1, p1, Bin(t, a.0, e1.right));
      PutPut(was2, p2, a.1);
      ChildSlots(t1.root, p1);
      EliminateEqAt(t, t1, p1 + [R], t2, p2);
    }

    /** The two operands of the second tree. */
    method EliminateInSecond(t: Junction, t1: ExprTree, p1: Path, t2: ExprTree, p2: Path)
      requires t1 != t2 && ValidPath(t1.root, p1) && ValidPath(t2.root, p2)
      requires !IsOp(t, At(t1.root, p1)) && IsOp(t, At(t2.root, p2))
      modifies t1, t2, this`transCount
      ensures var r := old(ElimEq(t, At(t1.root, p1), At(t2.root, p2)));
              t1.root == Put(old(t1.root), p1, r.0) && t2.root == Put(old(t2.root), p2, r.1)
      ensures old(transCount) <= transCount
      decreases Size(At(t1.root, p1)) + Size(At(t2.root, p2)), 0, 0
    {
      ghost var was1, was2, e1, e2 := t1.root, t2.root, At(t1.root, p1), At(t2.root, p2);
      ChildSlots(was2, p2);
      ghost var a := ElimEq(t, e1, e2.left);
      EliminateEqAt(t, t1, p1, t2, p2 + [L]);
      PutPut(was2, p2, Bin(t, a.1, e2.right));
      PutPut(was1, p1, a.0);
      ChildSlots(t2.root, p2);
      EliminateEqAt(t, t1, p1, t2, p2 + [R]);
    }

    /** __expr_eliminate_eq(t, ep1, ep2): the slots lie in two different trees. */
    method EliminateEqAt(t: Junction, t1: ExprTree, p1: Path, t2: ExprTree, p2: Path)
      requires t1 != t2 && ValidPath(t1.root, p1) && ValidPath(t2.root, p2)
      modifies t1, t2, this`transCount
      ensures var r := old(ElimEq(t, At(t1.root, p1), At(t2.root, p2)));
              t1.root == Put(old(t1.root), p1, r.0) && t2.root == Put(old(t2.root), p2, r.1)
      ensures old(transCount) <= transCount
      decreases Size(At(t1.root, p1)) + Size(At(t2.root, p2)),
                if IsOp(t, At(t1.root, p1)) || IsOp(t, At(t2.root, p2)) then 0 else 3, 1
    {
      var e1, e2 := At(t1.root, p1), At(t2.root, p2);
      PutAt(t1.root, p1, e1);
      PutAt(t2.root, p2, e2);
      if IsOp(t, e1) {
        EliminateInFirst(t, t1, p1, t2, p2);
        return;
      }
      if IsOp(t, e2) {
        EliminateInSecond(t, t1, p1, t2, p2);
        return;
      }
      if SameConstant(e1, e2) {
        return;
      }
      var eq := TestEq(e1, e2);
      if !eq {
        return;
      }
      transCount := transCount + 1;
      t1.root := Put(t1.root, p1, Neutral(t));
      t2.root := Put(t2.root, p2, Neutral(t));
    }

    /** expr_eliminate_eq(&t1, &t2) */
    method EliminateCommon(t1: ExprTree, t2: ExprTree)
      requires t1 != t2
      modifies t1, t2, this`transCount
      ensures (t1.root, t2.root) == old(EliminateEq(t1.root, t2.root))
      ensures old(transCount) <= transCount
      decreases Size(t1.root) + Size(t2.root), 1
    {
      if t1.root.Bin? {
        EliminateEqAt(t1.root.op, t1, [], t2, []);
      }
      if t2.root.Bin? && !IsOp(t2.root.op, t1.root) {
        EliminateEqAt(t2.root.op, t1, [], t2, []);
      }
      EliminateYn(t1, []);
      EliminateYn(t2, []);
    }

    /** expr_eq(e1, e2): works on copies and restores trans_count. */
    method TestEq(e1: Expr, e2: Expr) returns (res: bool)
      modifies this`transCount
      ensures res == ExprEq(e1, e2)
      ensures transCount == old(transCount)
      decreases Size(e1) + Size(e2), 2
    {
      match (e1, e2)
      case (Cmp(r1, a1, b1), Cmp(r2, a2, b2)) => return r1 == r2 && a1 == a2 && b1 == b2;
      case (Sym(s1), Sym(s2)) => return s1 == s2;
      case (Not(a1), Not(a2)) => res := TestEq(a1, a2);
      case (Bin(o1, _, _), Bin(o2, _, _)) =>
        if o1 != o2 {
          return false;
        }
        var c1 := new ExprTree(e1);
        var c2 := new ExprTree(e2);
        var oldCount := transCount;
        EliminateCommon(c1, c2);
        res := c1.root.Sym? && c2.root.Sym? && c1.root.sym == c2.root.sym;
        transCount := oldCount;
      case _ => return false;
    }
  }
}
