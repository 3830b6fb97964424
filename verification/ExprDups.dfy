/** Removal of redundant operands of and/or spines: expr_join_or, expr_join_and,
    expr_eliminate_dups1 and expr_eliminate_dups of scripts/kconfig/expr.c. */
module ExprDuplicates {
  import opened Exprs
  import opened ExprEquality

  // ----- joining two operands -----

  predicate IsRel(e: Expr, rel: Relation) { e.Cmp? && e.rel == rel }

  predicate JoinShape(e: Expr) { IsRel(e, Equal) || IsRel(e, Unequal) || e.Sym? || e.Not? }

  /** sym1 of the join functions: the symbol the first operand talks about. */
  function FirstSubject(e: Expr): Option<Symbol> {
    match e
    case Sym(s) => Some(s)
    case Cmp(rel, l, _) => if rel == Equal || rel == Unequal then Some(l) else None
    case Not(Sym(s)) => Some(s)
    case Not(Cmp(rel, l, _)) => if rel == Equal || rel == Unequal then Some(l) else None
    case _ => None
  }

  /** sym2: below a negation the second operand may only be a plain symbol. */
  function SecondSubject(e: Expr): Option<Symbol> {
    match e
    case Not(a) => if a.Sym? then Some(a.sym) else None
    case _ => FirstSubject(e)
  }

  /** Both operands talk about one bool or tristate symbol. */
  predicate SameSubject(e1: Expr, e2: Expr) {
    && JoinShape(e1) && JoinShape(e2)
    && FirstSubject(e1).Some? && FirstSubject(e1) == SecondSubject(e2)
    && TwoOrThreeValued(FirstSubject(e1).value.typ)
  }

  /** Both operands are comparisons rel, one with constant k and one with constant j. */
  predicate BothRel(e1: Expr, e2: Expr, rel: Relation, j: Symbol, k: Symbol) {
    IsRel(e1, rel) && IsRel(e2, rel) && ((e1.rhs == j && e2.rhs == k) || (e1.rhs == k && e2.rhs == j))
  }

  /** One operand is the bare symbol, the other compares it with constant k. */
  predicate SymAndRel(e1: Expr, e2: Expr, rel: Relation, k: Symbol) {
    (e1.Sym? && IsRel(e2, rel) && e2.rhs == k) || (e2.Sym? && IsRel(e1, rel) && e1.rhs == k)
  }

  /** expr_join_or */
  function JoinOr(e1: Expr, e2: Expr): Option<Expr> {
    if ExprEq(e1, e2) then Some(e1)
    else if !SameSubject(e1, e2) then None
    else
      var s := FirstSubject(e1).value;
      if s.typ == TTristate && BothRel(e1, e2, Equal, SYM_YES, SYM_MOD) then Some(Cmp(Unequal, s, SYM_NO))
      else if s.typ == TTristate && BothRel(e1, e2, Equal, SYM_YES, SYM_NO) then Some(Cmp(Unequal, s, SYM_MOD))
      else if s.typ == TTristate && BothRel(e1, e2, Equal, SYM_MOD, SYM_NO) then Some(Cmp(Unequal, s, SYM_YES))
      else if s.typ == TBoolean &&
              ((e1.Not? && e1.arg.Sym? && e2.Sym?) || (e2.Not? && e2.arg.Sym? && e1.Sym?)) then
        Some(Sym(SYM_YES))
      else None
  }

  /** (a = b) && (a != c) for constants b and c, in either order of the operands. */
  function JoinEqualUnequal(s: Symbol, eq: Symbol, ne: Symbol): Expr {
    if eq != ne then Cmp(Equal, s, eq) else Sym(SYM_NO)
  }

  /** expr_join_and */
  function JoinAnd(e1: Expr, e2: Expr): Option<Expr> {
    if ExprEq(e1, e2) then Some(e1)
    else if !SameSubject(e1, e2) then None
    else
      var s := FirstSubject(e1).value;
      if SymAndRel(e1, e2, Equal, SYM_YES) then Some(Cmp(Equal, s, SYM_YES))
      else if SymAndRel(e1, e2, Unequal, SYM_NO) then Some(Sym(s))
      else if SymAndRel(e1, e2, Unequal, SYM_MOD) then Some(Cmp(Equal, s, SYM_YES))
      else if s.typ != TTristate then None
      else if IsRel(e1, Equal) && IsRel(e2, Unequal) && e2.rhs.isConst && e1.rhs.isConst then
        Some(JoinEqualUnequal(s, e1.rhs, e2.rhs))
      else if IsRel(e1, Unequal) && IsRel(e2, Equal) && e1.rhs.isConst && e2.rhs.isConst then
        Some(JoinEqualUnequal(s, e2.rhs, e1.rhs))
      else if BothRel(e1, e2, Unequal, SYM_YES, SYM_NO) then Some(Cmp(Equal, s, SYM_MOD))
      else if BothRel(e1, e2, Unequal, SYM_YES, SYM_MOD) then Some(Cmp(Equal, s, SYM_NO))
      else if BothRel(e1, e2, Unequal, SYM_MOD, SYM_NO) then Some(Cmp(Equal, s, SYM_YES))
      else None
  }

  function Join(t: Junction, e1: Expr, e2: Expr): Option<Expr> {
    if t == Conj then JoinAnd(e1, e2) else JoinOr(e1, e2)
  }

  /** The values the comparisons of one symbol with y, m and n can take. */
  lemma SubjectValues(s: Symbol, v: Valuation)
    requires WellFormed(v) && TwoOrThreeValued(s.typ)
    ensures forall k: Tristate :: Compare(Equal, s, TriSymbol(k), v) == (if v(s).tri == k then YES else NO)
    ensures forall k: Tristate :: Compare(Unequal, s, TriSymbol(k), v) == (if v(s).tri == k then NO else YES)
    ensures TriSymbol(NO) == SYM_NO && TriSymbol(MOD) == SYM_MOD && TriSymbol(YES) == SYM_YES
    ensures v(SYM_YES).tri == YES && v(SYM_NO).tri == NO
    ensures s.typ == TBoolean ==> v(s).tri != MOD
  {
    assert SymOk(SYM_YES, v(SYM_YES)) && SymOk(SYM_NO, v(SYM_NO)) && SymOk(s, v(s));
    forall k: Tristate
      ensures Compare(Equal, s, TriSymbol(k), v) == (if v(s).tri == k then YES else NO)
      ensures Compare(Unequal, s, TriSymbol(k), v) == (if v(s).tri == k then NO else YES)
    {
      CompareWithTri(Equal, s, k, v);
      CompareWithTri(Unequal, s, k, v);
    }
  }

  /** ... one by one. */
  lemma SubjectAt(s: Symbol, v: Valuation)
    requires WellFormed(v) && TwoOrThreeValued(s.typ)
    ensures Compare(Equal, s, SYM_NO, v) == (if v(s).tri == NO then YES else NO)
    ensures Compare(Equal, s, SYM_MOD, v) == (if v(s).tri == MOD then YES else NO)
    ensures Compare(Equal, s, SYM_YES, v) == (if v(s).tri == YES then YES else NO)
    ensures Compare(Unequal, s, SYM_NO, v) == (if v(s).tri == NO then NO else YES)
    ensures Compare(Unequal, s, SYM_MOD, v) == (if v(s).tri == MOD then NO else YES)
    ensures Compare(Unequal, s, SYM_YES, v) == (if v(s).tri == YES then NO else YES)
    ensures v(SYM_YES).tri == YES && v(SYM_NO).tri == NO
    ensures s.typ == TBoolean ==> v(s).tri != MOD
  {
    SubjectValues(s, v);
    assert TriSymbol(NO) == SYM_NO && TriSymbol(MOD) == SYM_MOD && TriSymbol(YES) == SYM_YES;
  }

  /** Whatever expr_join_or returns is the or of its operands. */
  lemma JoinOrSound(e1: Expr, e2: Expr, v: Valuation)
    requires WellFormed(v) && JoinOr(e1, e2).Some?
    ensures Eval(JoinOr(e1, e2).value, v) == TriOr(Eval(e1, v), Eval(e2, v))
  {
    if ExprEq(e1, e2) { ExprEqSound(e1, e2, v); } else { JoinOrUnequal(e1, e2, v); }
  }

  lemma JoinOrUnequal(e1: Expr, e2: Expr, v: Valuation)
    requires WellFormed(v) && !ExprEq(e1, e2) && JoinOr(e1, e2).Some?
    ensures Eval(JoinOr(e1, e2).value, v) == TriOr(Eval(e1, v), Eval(e2, v))
  {
    SubjectAt(FirstSubject(e1).value, v);
  }

  lemma JoinEqualUnequalSound(s: Symbol, eq: Symbol, ne: Symbol, v: Valuation)
    requires WellFormed(v) && TwoOrThreeValued(s.typ) && eq.isConst && ne.isConst
    ensures Eval(JoinEqualUnequal(s, eq, ne), v) == TriAnd(Compare(Equal, s, eq, v), Compare(Unequal, s, ne, v))
  {
    assert SymOk(SYM_NO, v(SYM_NO));
    CompareByString(Equal, s, eq, v);
    CompareByString(Unequal, s, ne, v);
  }

  /** Whatever expr_join_and returns is the and of its operands. */
  lemma JoinAndSound(e1: Expr, e2: Expr, v: Valuation)
    requires WellFormed(v) && JoinAnd(e1, e2).Some?
    ensures Eval(JoinAnd(e1, e2).value, v) == TriAnd(Eval(e1, v), Eval(e2, v))
  {
    if ExprEq(e1, e2) {
      ExprEqSound(e1, e2, v);
    } else {
      var s := FirstSubject(e1).value;
      SubjectAt(s, v);
      if s.typ == TTristate { JoinAndTristate(e1, e2, v); }
    }
  }

  lemma JoinAndTristate(e1: Expr, e2: Expr, v: Valuation)
    requires WellFormed(v) && !ExprEq(e1, e2) && JoinAnd(e1, e2).Some? && FirstSubject(e1).value.typ == TTristate
    ensures Eval(JoinAnd(e1, e2).value, v) == TriAnd(Eval(e1, v), Eval(e2, v))
  {
    var s := FirstSubject(e1).value;
    SubjectAt(s, v);
    if IsRel(e1, Equal) && IsRel(e2, Unequal) && e2.rhs.isConst && e1.rhs.isConst {
      JoinEqualUnequalSound(s, e1.rhs, e2.rhs, v);
    } else if IsRel(e1, Unequal) && IsRel(e2, Equal) && e1.rhs.isConst && e2.rhs.isConst {
      JoinEqualUnequalSound(s, e2.rhs, e1.rhs, v);
    }
  }

  // ----- which operands are joined -----

  /** The operands of an or that are joined: two of a = y, a = m and a = n for a tristate a,
      and a with !a for a bool. */
  predicate OrPair(a: Symbol, l: Expr, r: Expr) {
    || (&& a.typ == TTristate
        && ((l == Cmp(Equal, a, SYM_YES) && r in {Cmp(Equal, a, SYM_MOD), Cmp(Equal, a, SYM_NO)})
            || (l == Cmp(Equal, a, SYM_MOD) && r == Cmp(Equal, a, SYM_NO))))
    || (a.typ == TBoolean && l == Sym(a) && r == Not(Sym(a)))
  }

  /** The operands of an and that are joined: a with a = y, a != n and a != m; and for a
      tristate a two of a != y, a != n and a != m, and a = b with a != c for constants. */
  predicate AndPair(a: Symbol, l: Expr, r: Expr) {
    || (&& TwoOrThreeValued(a.typ) && l == Sym(a)
        && r in {Cmp(Equal, a, SYM_YES), Cmp(Unequal, a, SYM_NO), Cmp(Unequal, a, SYM_MOD)})
    || (&& a.typ == TTristate
        && ((l == Cmp(Unequal, a, SYM_YES) && r in {Cmp(Unequal, a, SYM_NO), Cmp(Unequal, a, SYM_MOD)})
            || (l == Cmp(Unequal, a, SYM_NO) && r == Cmp(Unequal, a, SYM_MOD))
            || (l.Cmp? && r.Cmp? && l == Cmp(Equal, a, l.rhs) && r == Cmp(Unequal, a, r.rhs) &&
                l.rhs.isConst && r.rhs.isConst)))
  }

  predicate Pair(t: Junction, a: Symbol, l: Expr, r: Expr) {
    if t == Conj then AndPair(a, l, r) || AndPair(a, r, l) else OrPair(a, l, r) || OrPair(a, r, l)
  }

  /** Two operands that have to be joined: they are equal, or one of those pairs. */
  ghost predicate Twins(t: Junction, l: Expr, r: Expr) {
    l == r || ExprEq(l, r) || exists a :: Pair(t, a, l, r)
  }

  lemma PairJoins(t: Junction, a: Symbol, l: Expr, r: Expr)
    requires Pair(t, a, l, r)
    ensures Join(t, l, r).Some?
  {
  }

  lemma JoinsPair(t: Junction, l: Expr, r: Expr)
    requires Join(t, l, r).Some? && !ExprEq(l, r)
    ensures FirstSubject(l).Some? && Pair(t, FirstSubject(l).value, l, r)
  {
  }

  /** Exactly those operands are joined. */
  lemma JoinExact(t: Junction, l: Expr, r: Expr)
    ensures Join(t, l, r).Some? <==> Twins(t, l, r)
  {
    ExprEqReflexive(l);
    if a :| Pair(t, a, l, r) { PairJoins(t, a, l, r); }
    if Join(t, l, r).Some? && !ExprEq(l, r) { JoinsPair(t, l, r); }
  }

  // ----- negation normal form, which the pass keeps -----

  predicate BooleanTest(e: Expr) {
    e.Cmp? && (e.rel == Equal || e.rel == Unequal) && e.lhs.typ == TBoolean && e.rhs in {SYM_YES, SYM_MOD, SYM_NO}
  }

  /** Negation only directly above a symbol other than y, m and n, and no bool
      symbol tested against y, m or n. */
  predicate NegationNormal(e: Expr) {
    match e
    case Sym(_) => true
    case Cmp(_, _, _) => !BooleanTest(e)
    case Not(a) => a.Sym? && a.sym !in {SYM_YES, SYM_MOD, SYM_NO}
    case Bin(_, l, r) => NegationNormal(l) && NegationNormal(r)
  }

  /** A join stays within the operands' size, off the joined spine, and in
      negation normal form. */
  lemma JoinShapeKept(t: Junction, e1: Expr, e2: Expr)
    requires Join(t, e1, e2).Some? && !IsOp(t, e1)
    ensures var j := Join(t, e1, e2).value;
            Size(j) < Size(e1) + Size(e2) && !IsOp(t, j) &&
            (NegationNormal(e1) && NegationNormal(e2) ==> NegationNormal(j))
  {
  }

  // ----- spines -----

  /** The shape of the t-spine of an expression: its t nodes, with everything
      below them cut off. A pass never changes it. */
  datatype Skeleton = Leaf | Node(l: Skeleton, r: Skeleton)

  function Spine(t: Junction, e: Expr): Skeleton {
    if IsOp(t, e) then Node(Spine(t, e.left), Spine(t, e.right)) else Leaf
  }

  predicate OnSpine(s: Skeleton, p: Path) {
    p == [] || (s.Node? && OnSpine(if p[0] == L then s.l else s.r, p[1..]))
  }

  function Sub(s: Skeleton, p: Path): Skeleton
    requires OnSpine(s, p)
  {
    if p == [] then s else Sub(if p[0] == L then s.l else s.r, p[1..])
  }

  function Nodes(s: Skeleton): nat { if s.Leaf? then 0 else 1 + Nodes(s.l) + Nodes(s.r) }

  lemma {:induction false} SpinePath(t: Junction, e: Expr, p: Path)
    requires OnSpine(Spine(t, e), p)
    ensures ValidPath(e, p) && Sub(Spine(t, e), p) == Spine(t, At(e, p))
    ensures Size(At(e, p)) <= Size(e) && (p != [] ==> Size(At(e, p)) < Size(e))
    decreases p
  {
    if p != [] {
      SpinePath(t, if p[0] == L then e.left else e.right, p[1..]);
    }
  }

  lemma {:induction false} SpineChildren(s: Skeleton, p: Path)
    requires OnSpine(s, p) && Sub(s, p).Node?
    ensures OnSpine(s, p + [L]) && Sub(s, p + [L]) == Sub(s, p).l
    ensures OnSpine(s, p + [R]) && Sub(s, p + [R]) == Sub(s, p).r
    decreases p
  {
    if p == [] {
      assert [L][1..] == [] && [R][1..] == [] && p + [L] == [L] && p + [R] == [R];
    } else {
      assert (p + [L])[1..] == p[1..] + [L] && (p + [R])[1..] == p[1..] + [R];
      SpineChildren(if p[0] == L then s.l else s.r, p[1..]);
    }
  }

  predicate IsLeaf(t: Junction, e: Expr, p: Path) {
    OnSpine(Spine(t, e), p) && Sub(Spine(t, e), p) == Leaf
  }

  /** A constant neutral for the node sits directly below an and/or node that
      expr_eliminate_yn visits. */
  predicate Redundant(e: Expr) {
    e.Bin? && (e.left == Neutral(e.op) || e.right == Neutral(e.op) || Redundant(e.left) || Redundant(e.right))
  }

  lemma {:induction false} RedundantShrinks(e: Expr)
    requires Redundant(e)
    ensures Size(Yn(e)) < Size(e)
  {
    RedundantHasConstant(e);
    YnRemovesConstants(e);
  }

  lemma RedundantHasConstant(e: Expr)
    requires Redundant(e)
    ensures HasConstantOperand(e)
  {
  }

  /** Overwriting a spine leaf with something that is no t node. */
  lemma {:induction false} ReplaceLeaf(t: Junction, e: Expr, p: Path, x: Expr)
    requires IsLeaf(t, e, p) && !IsOp(t, x)
    ensures ValidPath(e, p) && Spine(t, Put(e, p, x)) == Spine(t, e)
    ensures !IsOp(t, At(e, p))
    ensures NegationNormal(e) ==> NegationNormal(At(e, p))
    ensures NegationNormal(e) && NegationNormal(x) ==> NegationNormal(Put(e, p, x))
    ensures p != [] && (Redundant(x) || x == Neutral(t)) ==> Redundant(Put(e, p, x))
    decreases p
  {
    if p != [] {
      ReplaceLeaf(t, if p[0] == L then e.left else e.right, p[1..], x);
    }
  }

  lemma {:induction false} OtherLeaf(t: Junction, e: Expr, p: Path, q: Path, x: Expr)
    requires IsLeaf(t, e, p) && IsLeaf(t, e, q) && p != q && !IsOp(t, x)
    ensures ValidPath(e, p) && ValidPath(e, q) && ValidPath(Put(e, p, x), q)
    ensures At(Put(e, p, x), q) == At(e, q)
    ensures forall y :: !IsOp(t, y) ==> ValidPath(Put(e, q, y), p) && Put(Put(e, p, x), q, y) == Put(Put(e, q, y), p, x)
    decreases p
  {
    assert p != [] && q != [];
    if p[0] == q[0] {
      assert p[1..] != q[1..];
      OtherLeaf(t, if p[0] == L then e.left else e.right, p[1..], q[1..], x);
    } else {
      ReplaceLeaf(t, if p[0] == L then e.left else e.right, p[1..], x);
      SpinePath(t, if q[0] == L then e.left else e.right, q[1..]);
    }
  }

  /** The value of a spine is its leaf's value joined with the rest of the spine. */
  lemma {:induction false} LeafValue(t: Junction, e: Expr, p: Path, x: Expr, v: Valuation)
    requires WellFormed(v) && IsLeaf(t, e, p)
    ensures ValidPath(e, p)
    ensures Eval(Put(e, p, x), v) == Apply(t, Eval(Put(e, p, Neutral(t)), v), Eval(x, v))
    decreases p
  {
    if p == [] {
      NeutralValue(t, Eval(x, v), v);
    } else {
      var sub, other := if p[0] == L then e.left else e.right, if p[0] == L then e.right else e.left;
      LeafValue(t, sub, p[1..], x, v);
      PutValue(t, e, p, x, v);
      PutValue(t, e, p, Neutral(t), v);
      Rearranged(t, Eval(Put(sub, p[1..], Neutral(t)), v), Eval(other, v), Eval(x, v));
    }
  }

  lemma NeutralValue(t: Junction, a: Tristate, v: Valuation)
    requires WellFormed(v)
    ensures Apply(t, Eval(Neutral(t), v), a) == a
  {
    assert SymOk(SYM_YES, v(SYM_YES)) && SymOk(SYM_NO, v(SYM_NO));
  }

  lemma PutValue(t: Junction, e: Expr, p: Path, x: Expr, v: Valuation)
    requires IsOp(t, e) && ValidPath(e, p) && p != []
    ensures Eval(Put(e, p, x), v) ==
            if p[0] == L then Apply(t, Eval(Put(e.left, p[1..], x), v), Eval(e.right, v))
            else Apply(t, Eval(Put(e.right, p[1..], x), v), Eval(e.left, v))
  {
  }

  lemma Rearranged(t: Junction, a: Tristate, b: Tristate, c: Tristate)
    ensures Apply(t, Apply(t, a, c), b) == Apply(t, Apply(t, a, b), c)
  {
  }

  /** Two different leaves of one spine, joined in place: the first becomes the
      neutral constant and the second the join. */
  function Joined(t: Junction, e: Expr, p: Path, q: Path, j: Expr): Expr
    requires IsLeaf(t, e, p) && IsLeaf(t, e, q) && p != q
  {
    OtherLeaf(t, e, p, q, Neutral(t));
    Put(Put(e, p, Neutral(t)), q, j)
  }

  lemma JoinedValue(t: Junction, e: Expr, p: Path, q: Path, j: Expr, v: Valuation)
    requires WellFormed(v) && IsLeaf(t, e, p) && IsLeaf(t, e, q) && p != q && !IsOp(t, j)
    requires ValidPath(e, p) && ValidPath(e, q)
    requires Eval(j, v) == Apply(t, Eval(At(e, p), v), Eval(At(e, q), v))
    ensures Eval(Joined(t, e, p, q, j), v) == Eval(e, v)
  {
    var n := Neutral(t);
    assert SymOk(SYM_YES, v(SYM_YES)) && SymOk(SYM_NO, v(SYM_NO));
    var ep, eq := At(e, p), At(e, q);
    ReplaceLeaf(t, e, p, n);
    ReplaceLeaf(t, e, q, n);
    OtherLeaf(t, e, p, q, n);
    PutAt(e, p, ep);
    PutAt(e, q, eq);
    LeafValue(t, Put(e, p, n), q, j, v);
    LeafValue(t, Put(e, q, n), p, ep, v);
    LeafValue(t, e, q, eq, v);
    OtherLeaf(t, e, q, p, n);
    PutAt(Put(e, q, n), p, ep);
    assert Put(Put(e, p, n), q, n) == Put(Put(e, q, n), p, n);
    assert Put(Put(e, q, n), p, ep) == Put(e, q, n);
  }

  lemma JoinStep(t: Junction, e: Expr, p: Path, q: Path)
    requires IsLeaf(t, e, p) && IsLeaf(t, e, q) && p != q
    requires ValidPath(e, p) && ValidPath(e, q) && Join(t, At(e, p), At(e, q)).Some?
    ensures var e' := Joined(t, e, p, q, Join(t, At(e, p), At(e, q)).value);
            Equiv(e, e') && Spine(t, e') == Spine(t, e) && Size(e') <= Size(e) && Redundant(e') &&
            (NegationNormal(e) ==> NegationNormal(e'))
  {
    var j := Join(t, At(e, p), At(e, q)).value;
    var e' := Joined(t, e, p, q, j);
    SpinePath(t, e, p);
    SpinePath(t, e, q);
    JoinShapeKept(t, At(e, p), At(e, q));
    forall v: Valuation | WellFormed(v) ensures Eval(e, v) == Eval(e', v) {
      if t == Conj { JoinAndSound(At(e, p), At(e, q), v); } else { JoinOrSound(At(e, p), At(e, q), v); }
      JoinedValue(t, e, p, q, j, v);
    }
    OtherLeaf(t, e, p, q, Neutral(t));
    OtherLeaf(t, e, q, p, j);
    ReplaceLeaf(t, e, p, Neutral(t));
    ReplaceLeaf(t, e, q, j);
    ReplaceLeaf(t, Put(e, p, Neutral(t)), q, j);
    ReplaceLeaf(t, Put(e, q, j), p, Neutral(t));
    PutAt(e, p, Neutral(t));
    PutAt(Put(e, p, Neutral(t)), q, j);
  }

  // ----- what a pass that joins nothing has checked -----

  /** No leaf below slot p joins with a different leaf below slot q, and no spine
      inside a leaf below p has joinable leaves. */
  predicate Silent(t: Junction, e: Expr, p: Path, q: Path)
    requires OnSpine(Spine(t, e), p) && OnSpine(Spine(t, e), q)
    decreases Size(e), Nodes(Sub(Spine(t, e), p)), Nodes(Sub(Spine(t, e), q))
  {
    SpinePath(t, e, p);
    SpinePath(t, e, q);
    if IsOp(t, At(e, p)) then
      SpineChildren(Spine(t, e), p);
      Silent(t, e, p + [L], q) && Silent(t, e, p + [R], q)
    else if IsOp(t, At(e, q)) then
      SpineChildren(Spine(t, e), q);
      Silent(t, e, p, q + [L]) && Silent(t, e, p, q + [R])
    else
      p == q || (Settled(At(e, p)) && Join(t, At(e, p), At(e, q)).None?)
  }

  /** expr_eliminate_dups has nothing left to do. */
  predicate Settled(e: Expr)
    decreases Size(e), Nodes(if e.Bin? then Spine(e.op, e) else Leaf) + 1
  {
    e.Bin? ==> Silent(e.op, e, [], [])
  }

  /** A node whose two operands are leaves that do not join. */
  lemma TwoLeaves(t: Junction, l: Expr, r: Expr)
    requires !IsOp(t, l) && !IsOp(t, r) && Settled(l) && Settled(r)
    requires Join(t, l, r).None? && Join(t, r, l).None?
    ensures Settled(Bin(t, l, r))
  {
    var e := Bin(t, l, r);
    ChildSlots(e, []);
    assert [] + [L] == [L] && [] + [R] == [R];
    assert OnSpine(Spine(t, e), [L]) && OnSpine(Spine(t, e), [R]);
    assert Silent(t, e, [L], []) by { assert Silent(t, e, [L], [L]) && Silent(t, e, [L], [R]); }
    assert Silent(t, e, [R], []) by { assert Silent(t, e, [R], [L]) && Silent(t, e, [R], [R]); }
  }

  lemma SilentFirst(t: Junction, e: Expr, p: Path, q: Path, d: Side)
    requires OnSpine(Spine(t, e), p) && OnSpine(Spine(t, e), q) && Silent(t, e, p, q)
    requires ValidPath(e, p) && IsOp(t, At(e, p))
    ensures OnSpine(Spine(t, e), p + [d]) && Silent(t, e, p + [d], q)
    ensures Nodes(Sub(Spine(t, e), p + [d])) < Nodes(Sub(Spine(t, e), p))
  {
    SpinePath(t, e, p);
    SpineChildren(Spine(t, e), p);
    if d == L { assert Silent(t, e, p + [L], q); } else { assert Silent(t, e, p + [R], q); }
  }

  lemma SilentSecond(t: Junction, e: Expr, p: Path, q: Path, d: Side)
    requires OnSpine(Spine(t, e), p) && OnSpine(Spine(t, e), q) && Silent(t, e, p, q)
    requires ValidPath(e, p) && ValidPath(e, q) && !IsOp(t, At(e, p)) && IsOp(t, At(e, q))
    ensures OnSpine(Spine(t, e), q + [d]) && Silent(t, e, p, q + [d])
    ensures Nodes(Sub(Spine(t, e), q + [d])) < Nodes(Sub(Spine(t, e), q))
  {
    SpinePath(t, e, q);
    SpineChildren(Spine(t, e), q);
    if d == L { assert Silent(t, e, p, q + [L]); } else { assert Silent(t, e, p, q + [R]); }
  }

  /** Settled, spelled out: any two different leaves of the spine do not join. */
  lemma {:induction false} SilentMeans(t: Junction, e: Expr, p: Path, q: Path, x: Path, y: Path)
    requires OnSpine(Spine(t, e), p) && OnSpine(Spine(t, e), q) && Silent(t, e, p, q)
    requires p <= x && q <= y && IsLeaf(t, e, x) && IsLeaf(t, e, y) && x != y
    ensures ValidPath(e, x) && ValidPath(e, y)
    ensures Settled(At(e, x)) && Join(t, At(e, x), At(e, y)).None?
    decreases Nodes(Sub(Spine(t, e), p)), Nodes(Sub(Spine(t, e), q))
  {
    SpinePath(t, e, p);
    SpinePath(t, e, q);
    if IsOp(t, At(e, p)) {
      assert x != p;
      SilentFirst(t, e, p, q, x[|p|]);
      SilentMeans(t, e, p + [x[|p|]], q, x, y);
    } else if IsOp(t, At(e, q)) {
      assert y != q;
      SilentSecond(t, e, p, q, y[|q|]);
      SilentMeans(t, e, p, q + [y[|q|]], x, y);
    } else {
      LeafIsLast(Spine(t, e), p, x);
      LeafIsLast(Spine(t, e), q, y);
    }
  }

  lemma {:induction false} LeafIsLast(s: Skeleton, p: Path, x: Path)
    requires OnSpine(s, p) && OnSpine(s, x) && p <= x && Sub(s, p).Leaf?
    ensures p == x
    decreases p
  {
    if p != [] {
      LeafIsLast(if p[0] == L then s.l else s.r, p[1..], x[1..]);
    }
  }

  /** No spine of e, at any depth, has two different leaves that have to be joined. */
  ghost predicate NoTwins(e: Expr)
    decreases Size(e), 1
  {
    e.Bin? ==>
      && (forall x, y | IsLeaf(e.op, e, x) && IsLeaf(e.op, e, y) && x != y :: !TwinsAt(e.op, e, x, y))
      && (forall x | IsLeaf(e.op, e, x) :: LeafNoTwins(e.op, e, x))
  }

  ghost predicate LeafNoTwins(t: Junction, e: Expr, x: Path)
    requires IsOp(t, e) && IsLeaf(t, e, x)
    decreases Size(e), 0
  {
    LeafSmaller(t, e, x);
    NoTwins(At(e, x))
  }

  ghost predicate TwinsAt(t: Junction, e: Expr, x: Path, y: Path)
    requires IsLeaf(t, e, x) && IsLeaf(t, e, y)
  {
    SpinePath(t, e, x);
    SpinePath(t, e, y);
    Twins(t, At(e, x), At(e, y))
  }

  lemma LeafSmaller(t: Junction, e: Expr, x: Path)
    requires IsOp(t, e) && IsLeaf(t, e, x)
    ensures ValidPath(e, x) && Size(At(e, x)) < Size(e)
  {
    SpinePath(t, e, x);
  }

  /** Every spine has a leaf besides a given one. */
  lemma {:induction false} AnotherLeaf(t: Junction, e: Expr, x: Path) returns (y: Path)
    requires IsOp(t, e) && IsLeaf(t, e, x)
    ensures IsLeaf(t, e, y) && y != x
  {
    var d := if x[0] == L then R else L;
    var z := FirstLeaf(t, if d == L then e.left else e.right);
    y := [d] + z;
    assert y[1..] == z;
  }

  lemma {:induction false} FirstLeaf(t: Junction, e: Expr) returns (y: Path)
    ensures IsLeaf(t, e, y)
  {
    y := [];
    if IsOp(t, e) {
      var z := FirstLeaf(t, e.left);
      y := [L] + z;
      assert y[1..] == z;
    }
  }

  /** expr_eliminate_dups has nothing left to do on exactly the trees without two operands
      that have to be joined. */
  lemma {:induction false} SettledNoTwins(e: Expr)
    requires Settled(e)
    ensures NoTwins(e)
    decreases Size(e)
  {
    if e.Bin? {
      var t := e.op;
      forall x, y | IsLeaf(t, e, x) && IsLeaf(t, e, y) && x != y ensures !TwinsAt(t, e, x, y) {
        SilentMeans(t, e, [], [], x, y);
        JoinExact(t, At(e, x), At(e, y));
      }
      forall x | IsLeaf(t, e, x) ensures LeafNoTwins(t, e, x) {
        var y := AnotherLeaf(t, e, x);
        SilentMeans(t, e, [], [], x, y);
        LeafSmaller(t, e, x);
        SettledNoTwins(At(e, x));
      }
    }
  }

  lemma {:induction false} NoTwinsSettled(e: Expr)
    requires NoTwins(e)
    ensures Settled(e)
    decreases Size(e), Nodes(if e.Bin? then Spine(e.op, e) else Leaf) + 1, 0
  {
    if e.Bin? { NoTwinsSilent(e.op, e, [], []); }
  }

  lemma {:induction false} NoTwinsSilent(t: Junction, e: Expr, p: Path, q: Path)
    requires IsOp(t, e) && NoTwins(e) && OnSpine(Spine(t, e), p) && OnSpine(Spine(t, e), q)
    ensures Silent(t, e, p, q)
    decreases Size(e), Nodes(Sub(Spine(t, e), p)), Nodes(Sub(Spine(t, e), q))
  {
    SpinePath(t, e, p);
    SpinePath(t, e, q);
    if IsOp(t, At(e, p)) {
      NodeSlots(t, e, p);
      NoTwinsSilent(t, e, p + [L], q);
      NoTwinsSilent(t, e, p + [R], q);
    } else if IsOp(t, At(e, q)) {
      NodeSlots(t, e, q);
      NoTwinsSilent(t, e, p, q + [L]);
      NoTwinsSilent(t, e, p, q + [R]);
    } else if p != q {
      assert !TwinsAt(t, e, p, q) && LeafNoTwins(t, e, p);
      JoinExact(t, At(e, p), At(e, q));
      LeafSmaller(t, e, p);
      NoTwinsSettled(At(e, p));
    }
  }

  // ----- the passes themselves -----

  /** What one call of expr_eliminate_dups1 may do to the t-spine e. */
  ghost predicate PassEffect(t: Junction, e: Expr, e': Expr, joined: bool) {
    && Equiv(e, e') && Spine(t, e') == Spine(t, e) && Size(e') <= Size(e)
    && (NegationNormal(e) ==> NegationNormal(e'))
    && (if joined then Redundant(e') else e' == e)
  }

  /** A pass over the spine inside one leaf, seen from the spine around it. */
  lemma InnerPass(t: Junction, e: Expr, p: Path, x: Expr, joined: bool)
    requires IsLeaf(t, e, p) && p != [] && ValidPath(e, p) && At(e, p).Bin?
    requires PassEffect(At(e, p).op, At(e, p), x, joined)
    ensures PassEffect(t, e, Put(e, p, x), joined)
  {
    SpinePath(t, e, p);
    assert Spine(At(e, p).op, x).Node?;
    ReplaceLeaf(t, e, p, x);
    PutAt(e, p, x);
    PutEquiv(e, p, x);
  }

  /** Two writes through slots below base, as one write to base. */
  lemma TwoWrites(root: Expr, base: Path, p: Path, q: Path, t: Junction, x: Expr, y: Expr)
    requires ValidPath(root, base) && IsLeaf(t, At(root, base), p) && IsLeaf(t, At(root, base), q)
    requires p != q && !IsOp(t, x)
    ensures ValidPath(root, base + p) && ValidPath(Put(root, base + p, x), base + q)
    ensures ValidPath(At(root, base), p) && ValidPath(Put(At(root, base), p, x), q)
    ensures Put(Put(root, base + p, x), base + q, y) == Put(root, base, Put(Put(At(root, base), p, x), q, y))
  {
    SpinePath(t, At(root, base), p);
    AtConcat(root, base, p);
    OtherLeaf(t, At(root, base), p, q, x);
    PutPut(root, base, Put(At(root, base), p, x));
    AtConcat(Put(root, base + p, x), base, q);
  }

  lemma LeafSlots(t: Junction, e: Expr, p: Path, q: Path)
    requires IsLeaf(t, e, p) && IsLeaf(t, e, q) && p != q
    ensures p != [] && ValidPath(e, p) && ValidPath(e, q) && Size(At(e, p)) < Size(e)
    ensures !IsOp(t, At(e, p)) && !IsOp(t, At(e, q))
  {
    SpinePath(t, e, p);
    SpinePath(t, e, q);
  }

  /** What expr_eliminate_dups1 leaves of the t-spine e with its pointers at p and q, and
      how many joins it makes. */
  ghost function Pass(t: Junction, e: Expr, p: Path, q: Path): (r: (Expr, nat))
    requires OnSpine(Spine(t, e), p) && OnSpine(Spine(t, e), q)
    ensures PassEffect(t, e, r.0, r.1 > 0) && (r.1 == 0 <==> Silent(t, e, p, q))
    decreases Size(e), Nodes(Sub(Spine(t, e), p)), Nodes(Sub(Spine(t, e), q)), 2
  {
    SpinePath(t, e, p);
    SpinePath(t, e, q);
    if IsOp(t, At(e, p)) then
      SpineChildren(Spine(t, e), p);
      var a := Pass(t, e, p + [L], q);
      var b := Pass(t, a.0, p + [R], q);
      (b.0, a.1 + b.1)
    else if IsOp(t, At(e, q)) then
      SpineChildren(Spine(t, e), q);
      var a := Pass(t, e, p, q + [L]);
      var b := Pass(t, a.0, p, q + [R]);
      (b.0, a.1 + b.1)
    else if p == q then (e, 0)
    else PassLeaves(t, e, p, q)
  }

  /** ... for two different leaves: first within the first one, then between the two. */
  ghost function PassLeaves(t: Junction, e: Expr, p: Path, q: Path): (r: (Expr, nat))
    requires IsLeaf(t, e, p) && IsLeaf(t, e, q) && p != q
    ensures PassEffect(t, e, r.0, r.1 > 0) && (r.1 == 0 <==> Silent(t, e, p, q))
    decreases Size(e), 0, 0, 1
  {
    var a := PassInner(t, e, p, q);
    LeafSlots(t, e, p, q);
    LeafSlots(t, a.0, p, q);
    var j := Join(t, At(a.0, p), At(a.0, q));
    if j.None? then a
    else
      JoinStep(t, a.0, p, q);
      (Joined(t, a.0, p, q, j.value), a.1 + 1)
  }

  ghost function PassInner(t: Junction, e: Expr, p: Path, q: Path): (r: (Expr, nat))
    requires IsLeaf(t, e, p) && IsLeaf(t, e, q) && p != q
    ensures PassEffect(t, e, r.0, r.1 > 0) && ValidPath(e, p) && (r.1 == 0 <==> Settled(At(e, p)))
    decreases Size(e), 0, 0, 0
  {
    LeafSlots(t, e, p, q);
    var x := At(e, p);
    if x.Bin? then
      var i := Pass(x.op, x, [], []);
      InnerPass(t, e, p, i.0, i.1 > 0);
      (Put(e, p, i.0), i.1)
    else (e, 0)
  }

  /** The two operands of a spine node. */
  lemma NodeSlots(t: Junction, e: Expr, p: Path)
    requires OnSpine(Spine(t, e), p) && ValidPath(e, p) && IsOp(t, At(e, p))
    ensures OnSpine(Spine(t, e), p + [L]) && Nodes(Sub(Spine(t, e), p + [L])) < Nodes(Sub(Spine(t, e), p))
    ensures OnSpine(Spine(t, e), p + [R]) && Nodes(Sub(Spine(t, e), p + [R])) < Nodes(Sub(Spine(t, e), p))
  {
    SpinePath(t, e, p);
    SpineChildren(Spine(t, e), p);
  }

  lemma PassKeepsSpine(t: Junction, e: Expr, p: Path, q: Path)
    requires OnSpine(Spine(t, e), p) && OnSpine(Spine(t, e), q)
    ensures Spine(t, Pass(t, e, p, q).0) == Spine(t, e) && Size(Pass(t, e, p, q).0) <= Size(e)
  {
    assert PassEffect(t, e, Pass(t, e, p, q).0, Pass(t, e, p, q).1 > 0);
  }

  /** expr_eliminate_dups1(t, ep1, ep2). Both slots lie on the one t-spine that
      hangs in slot base: ep1 is base + p and ep2 is base + q, so they may be
      equal, nested or disjoint. */
  method EliminateDups1(rw: Rewriter, t: Junction, tree: ExprTree, base: Path, p: Path, q: Path)
    requires ValidPath(tree.root, base)
    requires OnSpine(Spine(t, At(tree.root, base)), p) && OnSpine(Spine(t, At(tree.root, base)), q)
    modifies tree, rw
    ensures ValidPath(tree.root, base)
    ensures var r := Pass(t, old(At(tree.root, base)), p, q);
            && At(tree.root, base) == r.0 && tree.root == Put(old(tree.root), base, r.0)
            && rw.transCount == old(rw.transCount) + r.1
    ensures PassEffect(t, old(At(tree.root, base)), At(tree.root, base), old(rw.transCount) < rw.transCount)
    ensures rw.transCount == old(rw.transCount) <==> old(Silent(t, At(tree.root, base), p, q))
    decreases Size(At(tree.root, base)), Nodes(Sub(Spine(t, At(tree.root, base)), p)),
              Nodes(Sub(Spine(t, At(tree.root, base)), q)), 2
  {
    ghost var was := tree.root;
    ghost var e := At(was, base);
    PassSlots(was, base, t, p, q);
    if IsOp(t, At(tree.root, base + p)) {
      NodeSlots(t, e, p);
      PassKeepsSpine(t, e, p + [L], q);
      EliminateDups1(rw, t, tree, base, p + [L], q);
      PutPut(was, base, At(tree.root, base));
      EliminateDups1(rw, t, tree, base, p + [R], q);
      return;
    }
    SecondPointer(rw, t, tree, base, p, q);
  }

  /** ... once the first pointer is at a leaf. */
  method SecondPointer(rw: Rewriter, t: Junction, tree: ExprTree, base: Path, p: Path, q: Path)
    requires ValidPath(tree.root, base)
    requires IsLeaf(t, At(tree.root, base), p) && OnSpine(Spine(t, At(tree.root, base)), q)
    modifies tree, rw
    ensures ValidPath(tree.root, base)
    ensures var r := Pass(t, old(At(tree.root, base)), p, q);
            && At(tree.root, base) == r.0 && tree.root == Put(old(tree.root), base, r.0)
            && rw.transCount == old(rw.transCount) + r.1
    decreases Size(At(tree.root, base)), 0, Nodes(Sub(Spine(t, At(tree.root, base)), q)), 1
  {
    ghost var was := tree.root;
    ghost var e := At(was, base);
    PassSlots(was, base, t, p, q);
    if IsOp(t, At(tree.root, base + q)) {
      NodeSlots(t, e, q);
      PassKeepsSpine(t, e, p, q + [L]);
      EliminateDups1(rw, t, tree, base, p, q + [L]);
      PutPut(was, base, At(tree.root, base));
      EliminateDups1(rw, t, tree, base, p, q + [R]);
      return;
    }
    if p == q {
      return;
    }
    JoinLeaves(rw, t, tree, base, p, q);
  }

  lemma PassSlots(root: Expr, base: Path, t: Junction, p: Path, q: Path)
    requires ValidPath(root, base) && OnSpine(Spine(t, At(root, base)), p) && OnSpine(Spine(t, At(root, base)), q)
    ensures ValidPath(At(root, base), p) && ValidPath(At(root, base), q)
    ensures ValidPath(root, base + p) && At(root, base + p) == At(At(root, base), p)
    ensures ValidPath(root, base + q) && At(root, base + q) == At(At(root, base), q)
    ensures Sub(Spine(t, At(root, base)), p) == Spine(t, At(root, base + p))
    ensures Sub(Spine(t, At(root, base)), q) == Spine(t, At(root, base + q))
    ensures Put(root, base, At(root, base)) == root
  {
    SpinePath(t, At(root, base), p);
    SpinePath(t, At(root, base), q);
    AtConcat(root, base, p);
    AtConcat(root, base, q);
    PutAt(root, base, At(root, base));
  }

  /** The rest of expr_eliminate_dups1: two different leaves of the spine. */
  method JoinLeaves(rw: Rewriter, t: Junction, tree: ExprTree, base: Path, p: Path, q: Path)
    requires ValidPath(tree.root, base) && p != q
    requires IsLeaf(t, At(tree.root, base), p) && IsLeaf(t, At(tree.root, base), q)
    modifies tree, rw
    ensures ValidPath(tree.root, base)
    ensures var r := PassLeaves(t, old(At(tree.root, base)), p, q);
            && At(tree.root, base) == r.0 && tree.root == Put(old(tree.root), base, r.0)
            && rw.transCount == old(rw.transCount) + r.1
    decreases Size(At(tree.root, base)), 0, 0, 0
  {
    ghost var was := tree.root;
    ghost var e := At(was, base);
    ghost var a := PassInner(t, e, p, q);
    LeafSlots(t, e, p, q);
    AtConcat(was, base, p);
    PutAt(was, base, e);
    var e1 := At(tree.root, base + p);
    if e1.Bin? {
      EliminateDups1(rw, e1.op, tree, base + p, [], []);
    }
    ghost var mid := tree.root;
    PutPut(was, base, a.0);
    assert mid == Put(was, base, a.0);
    LeafSlots(t, a.0, p, q);
    AtConcat(mid, base, p);
    AtConcat(mid, base, q);
    e1 := At(tree.root, base + p);
    var e2 := At(tree.root, base + q);
    var tmp := Join(t, e1, e2);
    if tmp.Some? {
      TwoWrites(mid, base, p, q, t, Neutral(t), tmp.value);
      PutPut(was, base, Joined(t, a.0, p, q, tmp.value));
      tree.root := Put(tree.root, base + p, Neutral(t));
      tree.root := Put(tree.root, base + q, tmp.value);
      rw.transCount := rw.transCount + 1;
    }
  }

  /** What expr_eliminate_dups leaves of e. */
  ghost function Deduplicated(e: Expr): (r: Expr)
    ensures Equiv(e, r) && Settled(r) && (Settled(e) ==> r == e) && Size(r) <= Size(e)
    ensures NegationNormal(e) ==> NegationNormal(r)
    decreases Size(e)
  {
    if !e.Bin? then e
    else
      var a := Pass(e.op, e, [], []);
      if a.1 == 0 then e
      else
        RedundantShrinks(a.0);
        YnEquiv(a.0);
        YnNormal(a.0);
        Deduplicated(Yn(a.0))
  }

  /** expr_eliminate_dups */
  method EliminateDups(rw: Rewriter, tree: ExprTree)
    modifies tree, rw
    ensures tree.root == Deduplicated(old(tree.root))
    ensures Equiv(old(tree.root), tree.root)
    ensures Settled(tree.root) && NoTwins(tree.root)
    ensures old(Settled(tree.root)) ==> tree.root == old(tree.root)
    ensures Size(tree.root) <= old(Size(tree.root))
    ensures NegationNormal(old(tree.root)) ==> NegationNormal(tree.root)
    ensures rw.transCount == old(rw.transCount)
  {
    var oldCount := rw.transCount;
    while true
      invariant Deduplicated(tree.root) == Deduplicated(old(tree.root))
      decreases Size(tree.root)
    {
      rw.transCount := 0;
      if tree.root.Bin? {
        EliminateDups1(rw, tree.root.op, tree, [], [], []);
      }
      if rw.transCount == 0 {
        break;
      }
      RedundantShrinks(tree.root);
      rw.EliminateYn(tree, []);
    }
    SettledNoTwins(tree.root);
    rw.transCount := oldCount;
  }

  lemma YnEquiv(e: Expr)
    ensures Equiv(e, Yn(e))
  {
    forall v: Valuation | WellFormed(v) ensures Eval(e, v) == Eval(Yn(e), v) { YnSound(e, v); }
  }

  lemma {:induction false} YnNormal(e: Expr)
    ensures NegationNormal(e) ==> NegationNormal(Yn(e))
  {
    if e.Bin? { YnNormal(e.left); YnNormal(e.right); }
  }
}
