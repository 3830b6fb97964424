/** Normalisation of dependency expressions: expr_transform, expr_trans_bool,
    expr_trans_compare and the two symbol searches of scripts/kconfig/expr.c. */
module ExprNormalisation {
  import opened Exprs
  import opened ExprDuplicates

  // ----- expr_transform -----

  function Complement(rel: Relation): Relation {
    match rel
    case Equal => Unequal
    case Unequal => Equal
    case Leq => Gth
    case Geq => Lth
    case Lth => Geq
    case Gth => Leq
  }

  function Dual(t: Junction): Junction { if t == Conj then Disj else Conj }

  /** Termination weight of expr_transform: pushing a negation through an and/or
      node adds a node but drops the weight. */
  function Weight(e: Expr): (w: nat)
    ensures w >= 1
  {
    match e
    case Sym(_) => 1
    case Cmp(_, _, _) => 2
    case Not(a) => 2 * Weight(a)
    case Bin(_, l, r) => 1 + Weight(l) + Weight(r)
  }

  /** !(l t r) after pushing the negation inwards. */
  function DeMorgan(t: Junction, l: Expr, r: Expr): (e: Expr)
    ensures Weight(e) < 2 * Weight(Bin(t, l, r))
  {
    assert Weight(Not(l)) == 2 * Weight(l) && Weight(Not(r)) == 2 * Weight(r);
    Bin(Dual(t), Not(l), Not(r))
  }

  lemma DeMorganValue(t: Junction, l: Expr, r: Expr, v: Valuation)
    ensures Eval(DeMorgan(t, l, r), v) == TriNot(Eval(Bin(t, l, r), v))
    ensures AllOrderable(Bin(t, l, r), v) ==> AllOrderable(DeMorgan(t, l, r), v)
  {
    assert Eval(Not(l), v) == TriNot(Eval(l, v)) && Eval(Not(r), v) == TriNot(Eval(r, v));
    assert AllOrderable(Not(l), v) == AllOrderable(l, v) && AllOrderable(Not(r), v) == AllOrderable(r, v);
  }

  /** The E_EQUAL and E_UNEQUAL cases: a bool symbol tested against y, m or n. */
  function TransformTest(e: Expr): (r: Expr)
    requires e.Cmp?
    ensures Weight(r) <= Weight(e)
  {
    if !BooleanTest(e) then e
    else if e.rhs == SYM_MOD then (if e.rel == Equal then Sym(SYM_NO) else Sym(SYM_YES))
    else if (e.rel == Equal) == (e.rhs == SYM_YES) then Sym(e.lhs)
    else Not(Sym(e.lhs))
  }

  /** expr_transform */
  function Transform(e: Expr): (r: Expr)
    ensures Weight(r) <= Weight(e)
    decreases Weight(e)
  {
    match e
    case Sym(_) => e
    case Cmp(_, _, _) => TransformTest(e)
    case Bin(t, l, r) => Bin(t, Transform(l), Transform(r))
    case Not(a) =>
      match Transform(a)
      case Not(b) => Transform(b)
      case Cmp(rel, l, r) => Cmp(Complement(rel), l, r)
      case Bin(t, l, r) => Transform(DeMorgan(t, l, r))
      case Sym(s) =>
        if s == SYM_YES then Sym(SYM_NO)
        else if s == SYM_MOD then Sym(SYM_MOD)
        else if s == SYM_NO then Sym(SYM_YES)
        else Not(Sym(s))
  }

  /** The two operands can be ordered: the evaluator does not fall into its
      "Cannot compare" branch. */
  predicate Orderable(l: Symbol, r: Symbol, v: Valuation) {
    (l.typ == TString && r.typ == TString) || v(l).parsed.KString? || v(r).parsed.KString?
    || (!v(l).parsed.KInvalid? && !v(r).parsed.KInvalid?)
  }

  predicate AllOrderable(e: Expr, v: Valuation) {
    match e
    case Sym(_) => true
    case Cmp(rel, l, r) => rel == Equal || rel == Unequal || Orderable(l, r, v)
    case Not(a) => AllOrderable(a, v)
    case Bin(_, l, r) => AllOrderable(l, v) && AllOrderable(r, v)
  }

  /** Replacing a negated comparison by the complementary one is right exactly
      when the operands can be ordered (always, for = and !=). */
  lemma NegatedComparison(rel: Relation, l: Symbol, r: Symbol, v: Valuation)
    requires !BooleanTest(Cmp(rel, l, r))
    ensures Eval(Transform(Not(Cmp(rel, l, r))), v) == Eval(Not(Cmp(rel, l, r)), v)
            <==> rel == Equal || rel == Unequal || Orderable(l, r, v)
  {
    assert Transform(Not(Cmp(rel, l, r))) == Cmp(Complement(rel), l, r);
  }

  /** No comparison has an S_OTHER operand. */
  predicate NoOther(e: Expr) {
    match e
    case Sym(_) => true
    case Cmp(_, l, r) => l.typ != TOther && r.typ != TOther
    case Not(a) => NoOther(a)
    case Bin(_, l, r) => NoOther(l) && NoOther(r)
  }

  lemma {:induction false} NoOtherOrderable(e: Expr, v: Valuation)
    requires WellFormed(v) && NoOther(e)
    ensures AllOrderable(e, v)
  {
    match e
    case Cmp(_, l, r) => assert SymOk(l, v(l)) && SymOk(r, v(r));
    case Not(a) => NoOtherOrderable(a, v);
    case Bin(_, l, r) => NoOtherOrderable(l, v); NoOtherOrderable(r, v);
    case _ =>
  }

  lemma TransformTestSound(e: Expr, v: Valuation)
    requires WellFormed(v) && e.Cmp?
    ensures Eval(TransformTest(e), v) == Eval(e, v)
    ensures AllOrderable(e, v) ==> AllOrderable(TransformTest(e), v)
    ensures NegationNormal(TransformTest(e))
  {
    if BooleanTest(e) {
      SubjectValues(e.lhs, v);
      assert TriSymbol(NO) == SYM_NO && TriSymbol(MOD) == SYM_MOD && TriSymbol(YES) == SYM_YES;
    }
  }

  /** expr_transform keeps the value. */
  lemma {:induction false} TransformSound(e: Expr, v: Valuation)
    requires WellFormed(v) && AllOrderable(e, v)
    ensures Eval(Transform(e), v) == Eval(e, v) && AllOrderable(Transform(e), v)
    decreases Weight(e)
  {
    match e
    case Sym(_) =>
    case Cmp(_, _, _) => TransformTestSound(e, v);
    case Bin(_, l, r) =>
      TransformSound(l, v);
      TransformSound(r, v);
    case Not(a) =>
      TransformSound(a, v);
      match Transform(a) {
        case Not(b) =>
          TransformSound(b, v);
        case Bin(t, l, r) =>
          DeMorganValue(t, l, r, v);
          TransformSound(DeMorgan(t, l, r), v);
        case _ =>
          NegatedLeaf(a, v);
      }
  }

  /** The negation of what has become a comparison or a symbol. */
  lemma NegatedLeaf(a: Expr, v: Valuation)
    requires WellFormed(v) && (Transform(a).Cmp? || Transform(a).Sym?)
    requires Eval(Transform(a), v) == Eval(a, v) && AllOrderable(Transform(a), v)
    ensures Eval(Transform(Not(a)), v) == Eval(Not(a), v) && AllOrderable(Transform(Not(a)), v)
  {
    var b := Transform(a);
    if b.Cmp? {
      ComplementValue(b.rel, b.lhs, b.rhs, v);
    } else {
      NegatedSymbol(a, v);
    }
  }

  lemma NegatedSymbol(a: Expr, v: Valuation)
    requires WellFormed(v) && Transform(a).Sym?
    ensures Eval(Transform(Not(a)), v) == TriNot(Eval(Transform(a), v)) && AllOrderable(Transform(Not(a)), v)
  {
    assert SymOk(SYM_YES, v(SYM_YES)) && SymOk(SYM_NO, v(SYM_NO)) && SymOk(SYM_MOD, v(SYM_MOD));
  }

  lemma ComplementValue(rel: Relation, l: Symbol, r: Symbol, v: Valuation)
    requires rel == Equal || rel == Unequal || Orderable(l, r, v)
    ensures Compare(Complement(rel), l, r, v) == TriNot(Compare(rel, l, r, v))
  {
    assert forall x :: Decide(Complement(rel), x) == TriNot(Decide(rel, x));
  }

  /** expr_transform yields negation normal form. */
  lemma {:induction false} TransformNormal(e: Expr)
    ensures NegationNormal(Transform(e))
    decreases Weight(e)
  {
    match e
    case Sym(_) =>
    case Cmp(_, _, _) =>
    case Bin(_, l, r) =>
      TransformNormal(l);
      TransformNormal(r);
    case Not(a) =>
      TransformNormal(a);
      match Transform(a) {
        case Not(b) => TransformNormal(b);
        case Cmp(_, _, _) =>
        case Bin(t, l, r) => TransformNormal(DeMorgan(t, l, r));
        case Sym(_) =>
      }
  }

  /** What is in negation normal form is left alone, so expr_transform is idempotent. */
  lemma {:induction false} TransformFixesNormal(e: Expr)
    requires NegationNormal(e)
    ensures Transform(e) == e
  {
    match e
    case Bin(_, l, r) =>
      TransformFixesNormal(l);
      TransformFixesNormal(r);
    case Not(a) =>
      assert Transform(a) == a;
    case _ =>
  }

  lemma TransformIdempotent(e: Expr)
    ensures Transform(Transform(e)) == Transform(e)
  {
    TransformNormal(e);
    TransformFixesNormal(Transform(e));
  }

  lemma NotSlot(e: Expr, p: Path)
    requires ValidPath(e, p) && At(e, p).Not?
    ensures ValidPath(e, p + [L]) && At(e, p + [L]) == At(e, p).arg
    ensures forall x :: Put(e, p + [L], x) == Put(e, p, Not(x))
  {
    var n := At(e, p);
    assert [L][1..] == [] && ValidPath(n.arg, [L][1..]);
    AtConcat(e, p, [L]);
    forall x ensures Put(n, [L], x) == Not(x) {
      assert Put(n.arg, [L][1..], x) == x;
    }
  }

  /** e = expr_transform(e) on the tree in slot p. */
  method TransformAt(tree: ExprTree, p: Path)
    requires ValidPath(tree.root, p)
    modifies tree
    ensures tree.root == Put(old(tree.root), p, Transform(old(At(tree.root, p))))
    decreases Weight(At(tree.root, p))
  {
    ghost var was := tree.root;
    var e := At(tree.root, p);
    PutAt(was, p, e);
    match e
    case Sym(_) =>
    case Cmp(_, _, _) =>
      tree.root := Put(tree.root, p, TransformTest(e));
    case Bin(t, l, r) =>
      ChildSlots(was, p);
      TransformAt(tree, p + [L]);
      PutPut(was, p, Bin(t, Transform(l), r));
      ChildSlots(tree.root, p);
      TransformAt(tree, p + [R]);
    case Not(a) =>
      NotSlot(was, p);
      TransformAt(tree, p + [L]);
      PutPut(was, p, Not(Transform(a)));
      TransformNot(tree, p, a);
  }

  /** The E_NOT case of expr_transform, once the operand a is transformed. */
  method TransformNot(tree: ExprTree, p: Path, ghost a: Expr)
    requires ValidPath(tree.root, p) && At(tree.root, p) == Not(Transform(a))
    modifies tree
    ensures tree.root == Put(old(tree.root), p, Transform(Not(a)))
    decreases 2 * Weight(a), 0
  {
    ghost var was := tree.root;
    var e := At(tree.root, p).arg;
    PutAt(was, p, At(was, p));
    match e
    case Not(b) =>
      // !!a -> a
      PutPut(was, p, b);
      tree.root := Put(tree.root, p, b);
      TransformAt(tree, p);
    case Cmp(rel, l, r) =>
      tree.root := Put(tree.root, p, Cmp(Complement(rel), l, r));
    case Bin(t, l, r) =>
      // !(a || b) -> !a && !b, and its dual
      assert DeMorgan(t, l, r) == Bin(Dual(t), Not(l), Not(r));
      PutPut(was, p, Bin(Dual(t), Not(l), Not(r)));
      tree.root := Put(tree.root, p, Bin(Dual(t), Not(l), Not(r)));
      TransformAt(tree, p);
    case Sym(s) =>
      if s == SYM_YES {
        tree.root := Put(tree.root, p, Sym(SYM_NO));
      } else if s == SYM_MOD {
        tree.root := Put(tree.root, p, Sym(SYM_MOD));
      } else if s == SYM_NO {
        tree.root := Put(tree.root, p, Sym(SYM_YES));
      }
  }

  // ----- expr_trans_bool -----

  /** expr_trans_bool: FOO != n becomes FOO, for a tristate FOO. */
  function TransBool(e: Expr): Expr {
    match e
    case Bin(t, l, r) => Bin(t, TransBool(l), TransBool(r))
    case Not(a) => Not(TransBool(a))
    case Cmp(rel, l, r) => if rel == Unequal && l.typ == TTristate && r == SYM_NO then Sym(l) else e
    case Sym(_) => e
  }

  /** Nowhere in e is a tristate symbol tested for being other than n. */
  ghost predicate Testless(e: Expr) { forall p | ValidPath(e, p) :: !NonNoTest(At(e, p)) }

  predicate NonNoTest(x: Expr) { x.Cmp? && x.rel == Unequal && x.rhs == SYM_NO && x.lhs.typ == TTristate }

  /** expr_trans_bool leaves no such test. */
  lemma TransBoolTestless(e: Expr)
    ensures Testless(TransBool(e))
  {
    forall p | ValidPath(TransBool(e), p) ensures !NonNoTest(At(TransBool(e), p)) { TransBoolNoTest(e, p); }
  }

  lemma {:induction false} TransBoolNoTest(e: Expr, p: Path)
    requires ValidPath(TransBool(e), p)
    ensures !NonNoTest(At(TransBool(e), p))
    decreases p
  {
    if p != [] {
      TransBoolNoTest(if e.Not? then e.arg else if p[0] == L then e.left else e.right, p[1..]);
    }
  }

  /** In negation normal form, expr_trans_bool keeps the value up to reading m as y. */
  lemma {:induction false} TransBoolPromotes(e: Expr, v: Valuation)
    requires WellFormed(v) && NegationNormal(e)
    ensures Promote(Eval(TransBool(e), v)) == Promote(Eval(e, v))
    ensures NegationNormal(TransBool(e))
  {
    match e
    case Bin(_, l, r) =>
      TransBoolPromotes(l, v);
      TransBoolPromotes(r, v);
    case Cmp(_, l, _) =>
      if l.typ == TTristate {
        SubjectValues(l, v);
        assert TriSymbol(NO) == SYM_NO;
      }
    case _ =>
  }

  /** Outside negation normal form it does not: !(a != n) with a = m. */
  lemma TransBoolNeedsNormal(a: Symbol, v: Valuation)
    requires WellFormed(v) && a.typ == TTristate && v(a).tri == MOD
    ensures var e := Not(Cmp(Unequal, a, SYM_NO));
            Promote(Eval(e, v)) == NO && Promote(Eval(TransBool(e), v)) == YES
  {
    SubjectValues(a, v);
    assert TriSymbol(NO) == SYM_NO;
  }

  /** The two-valued tests FOO != n of e read as the value of FOO. */
  function Loosely(e: Expr, v: Valuation): Tristate {
    match e
    case Not(a) => TriNot(Loosely(a, v))
    case Bin(t, l, r) => Apply(t, Loosely(l, v), Loosely(r, v))
    case Cmp(rel, l, r) =>
      if rel == Unequal && l.typ == TTristate && r == SYM_NO then v(l).tri else Eval(e, v)
    case Sym(_) => Eval(e, v)
  }

  lemma {:induction false} TransBoolReads(e: Expr, v: Valuation)
    requires WellFormed(v)
    ensures Eval(TransBool(e), v) == Loosely(e, v)
    ensures Loosely(e, v) != MOD ==> Eval(e, v) == Loosely(e, v)
  {
    match e
    case Not(a) => TransBoolReads(a, v);
    case Bin(_, l, r) =>
      TransBoolReads(l, v);
      TransBoolReads(r, v);
    case Cmp(_, l, _) =>
      if l.typ == TTristate {
        SubjectValues(l, v);
        assert TriSymbol(NO) == SYM_NO;
      }
    case Sym(_) =>
  }

  /** So for any e the promoted value is kept if and only if it is not the case that e
      is n and reads as m. */
  lemma TransBoolExact(e: Expr, v: Valuation)
    requires WellFormed(v)
    ensures Promote(Eval(TransBool(e), v)) == Promote(Eval(e, v)) <==> !(Eval(e, v) == NO && Loosely(e, v) == MOD)
  {
    TransBoolReads(e, v);
  }

  /** e = expr_trans_bool(e) on the tree in slot p. */
  method TransBoolAt(tree: ExprTree, p: Path)
    requires ValidPath(tree.root, p)
    modifies tree
    ensures tree.root == Put(old(tree.root), p, TransBool(old(At(tree.root, p))))
    decreases At(tree.root, p)
  {
    ghost var was := tree.root;
    var e := At(tree.root, p);
    PutAt(was, p, e);
    match e
    case Bin(t, l, r) =>
      ChildSlots(was, p);
      TransBoolAt(tree, p + [L]);
      PutPut(was, p, Bin(t, TransBool(l), r));
      ChildSlots(tree.root, p);
      TransBoolAt(tree, p + [R]);
    case Not(a) =>
      NotSlot(was, p);
      TransBoolAt(tree, p + [L]);
    case Cmp(rel, l, r) =>
      if rel == Unequal && l.typ == TTristate {
        if r == SYM_NO {
          tree.root := Put(tree.root, p, Sym(l));
        }
      }
    case Sym(_) =>
  }

  // ----- expr_trans_compare -----

  /** expr_trans_compare(e, rel, k) for a constant k; rel is = or !=. */
  function TransCompare(e: Expr, rel: Relation, k: Tristate): Expr
    requires rel == Equal || rel == Unequal
  {
    match e
    case Bin(t, l, r) =>
      var c1, c2 := TransCompare(l, Equal, k), TransCompare(r, Equal, k);
      var both := if k == YES then Bin(t, c1, c2) else if k == NO then Bin(Dual(t), c1, c2) else e;
      if rel == Unequal then Not(both) else both
    case Not(a) => TransCompare(a, Complement(rel), k)
    case Cmp(_, _, _) =>
      if k == MOD then (if rel == Equal then Sym(SYM_NO) else Sym(SYM_YES))
      else if (rel == Equal) == (k == YES) then e
      else Not(e)
    case Sym(s) => Cmp(rel, s, TriSymbol(k))
  }

  function TransCompareOpt(e: Option<Expr>, rel: Relation, k: Tristate): Expr
    requires rel == Equal || rel == Unequal
  {
    match e
    case Some(x) => TransCompare(x, rel, k)
    case None => if rel == Unequal then Not(Sym(TriSymbol(k))) else Sym(TriSymbol(k))
  }

  predicate ValueSymbol(s: Symbol) { TwoOrThreeValued(s.typ) || s in {SYM_YES, SYM_MOD, SYM_NO} }

  /** Every symbol used as a value is bool, tristate, or one of y, m, n. */
  predicate Typed(e: Expr) {
    match e
    case Sym(s) => ValueSymbol(s)
    case Cmp(_, _, _) => true
    case Not(a) => Typed(a)
    case Bin(_, l, r) => Typed(l) && Typed(r)
  }

  /** No negation has an operand of value m. */
  predicate NegatesTwoValued(e: Expr, v: Valuation) {
    match e
    case Not(a) => Eval(a, v) != MOD && NegatesTwoValued(a, v)
    case Bin(_, l, r) => NegatesTwoValued(l, v) && NegatesTwoValued(r, v)
    case _ => true
  }

  lemma ValueSymbolTest(s: Symbol, rel: Relation, k: Tristate, v: Valuation)
    requires WellFormed(v) && ValueSymbol(s) && (rel == Equal || rel == Unequal)
    ensures Compare(rel, s, TriSymbol(k), v) == (if (v(s).tri == k) == (rel == Equal) then YES else NO)
  {
    if TwoOrThreeValued(s.typ) {
      CompareWithTri(rel, s, k, v);
    } else {
      var c := TriSymbol(k);
      assert SymOk(s, v(s)) && SymOk(c, v(c));
      StrCmpZero(v(s).str, v(c).str);
      TriStringInjective(v(s).tri, k);
    }
  }

  /** expr_trans_compare(e, rel, k) for k = y or n is the two-valued test of e against k. */
  lemma {:induction false} TransCompareSound(e: Expr, rel: Relation, k: Tristate, v: Valuation)
    requires WellFormed(v) && Typed(e) && NegatesTwoValued(e, v)
    requires (rel == Equal || rel == Unequal) && k != MOD
    ensures Eval(TransCompare(e, rel, k), v) == (if (Eval(e, v) == k) == (rel == Equal) then YES else NO)
  {
    match e
    case Sym(s) => ValueSymbolTest(s, rel, k, v);
    case Not(a) => TransCompareSound(a, Complement(rel), k, v);
    case Bin(_, l, r) =>
      TransCompareSound(l, Equal, k, v);
      TransCompareSound(r, Equal, k, v);
    case Cmp(_, _, _) =>
  }

  /** What the test of e against k = y or n actually looks at: a negation of an operand
      that is not k is k, and otherwise not. */
  function Reading(e: Expr, k: Tristate, v: Valuation): Tristate {
    match e
    case Not(a) => if Reading(a, k, v) == k then TriNot(k) else k
    case Bin(t, l, r) => Apply(t, Reading(l, k, v), Reading(r, k, v))
    case _ => Eval(e, v)
  }

  /** expr_trans_compare(e, rel, k) for k = y or n and any e: the two-valued test of that
      reading against k. */
  lemma {:induction false} TransCompareReads(e: Expr, rel: Relation, k: Tristate, v: Valuation)
    requires WellFormed(v) && Typed(e) && (rel == Equal || rel == Unequal) && k != MOD
    ensures Eval(TransCompare(e, rel, k), v) == (if (Reading(e, k, v) == k) == (rel == Equal) then YES else NO)
  {
    match e
    case Sym(s) => ValueSymbolTest(s, rel, k, v);
    case Not(a) => TransCompareReads(a, Complement(rel), k, v);
    case Bin(_, l, r) =>
      TransCompareReads(l, Equal, k, v);
      TransCompareReads(r, Equal, k, v);
    case Cmp(_, _, _) =>
  }

  /** Reading and value differ at most where the value is m, and then the reading is k
      (towards n for the test against n, towards y for the test against y). */
  lemma {:induction false} ReadingNear(e: Expr, k: Tristate, v: Valuation)
    requires WellFormed(v) && k != MOD
    ensures Reading(e, k, v) != k ==> Eval(e, v) != k
    ensures Reading(e, k, v) == k ==> Eval(e, v) != TriNot(k)
  {
    match e
    case Not(a) => ReadingNear(a, k, v);
    case Bin(_, l, r) =>
      ReadingNear(l, k, v);
      ReadingNear(r, k, v);
    case Sym(_) =>
    case Cmp(_, _, _) =>
  }

  /** So the test of e against k is right if and only if it is not the case that e is m
      and reads as k; it then says k where e is m. */
  lemma TransCompareExact(e: Expr, rel: Relation, k: Tristate, v: Valuation)
    requires WellFormed(v) && Typed(e) && (rel == Equal || rel == Unequal) && k != MOD
    ensures Eval(TransCompare(e, rel, k), v) == (if (Eval(e, v) == k) == (rel == Equal) then YES else NO)
            <==> !(Eval(e, v) == MOD && Reading(e, k, v) == k)
  {
    TransCompareReads(e, rel, k, v);
    ReadingNear(e, k, v);
  }

  /** The test e != n never overclaims, whatever is negated. */
  lemma TransCompareBound(e: Expr, v: Valuation)
    requires WellFormed(v) && Typed(e)
    ensures Eval(TransCompare(e, Unequal, NO), v) != NO ==> Eval(e, v) != NO
  {
    TransCompareReads(e, Unequal, NO, v);
    ReadingNear(e, NO, v);
  }

  /** It does underclaim below a negation of m: !a is m, yet its test against n is n. */
  lemma TransCompareNegatedMod(a: Symbol, v: Valuation)
    requires WellFormed(v) && a.typ == TTristate && v(a).tri == MOD
    ensures Eval(Not(Sym(a)), v) == MOD && Eval(TransCompare(Not(Sym(a)), Unequal, NO), v) == NO
  {
    ValueSymbolTest(a, Equal, NO, v);
  }

  // ----- symbol searches -----

  /** expr_contains_symbol */
  predicate ContainsSymbol(e: Expr, s: Symbol) {
    match e
    case Bin(_, l, r) => ContainsSymbol(l, s) || ContainsSymbol(r, s)
    case Sym(x) => x == s
    case Cmp(_, l, r) => l == s || r == s
    case Not(a) => ContainsSymbol(a, s)
  }

  /** expr_depends_symbol */
  predicate DependsSymbol(e: Expr, s: Symbol) {
    match e
    case Bin(t, l, r) => t == Conj && (DependsSymbol(l, s) || DependsSymbol(r, s))
    case Sym(x) => x == s
    case Cmp(rel, l, r) =>
      l == s && ((rel == Equal && (r == SYM_YES || r == SYM_MOD)) || (rel == Unequal && r == SYM_NO))
    case Not(_) => false
  }

  /** expr_depends_symbol(e, s): e is n whenever s is. */
  lemma {:induction false} DependsSound(e: Expr, s: Symbol, v: Valuation)
    requires WellFormed(v) && TwoOrThreeValued(s.typ) && DependsSymbol(e, s)
    ensures v(s).tri == NO ==> Eval(e, v) == NO
  {
    match e
    case Bin(_, l, r) =>
      if DependsSymbol(l, s) { DependsSound(l, s, v); } else { DependsSound(r, s, v); }
    case Cmp(_, _, _) =>
      SubjectValues(s, v);
      assert TriSymbol(NO) == SYM_NO && TriSymbol(MOD) == SYM_MOD && TriSymbol(YES) == SYM_YES;
    case _ =>
  }

  /** An operand that is n wherever s is, in one of the forms the code looks for. */
  predicate Forces(x: Expr, s: Symbol) {
    x in {Sym(s), Cmp(Equal, s, SYM_YES), Cmp(Equal, s, SYM_MOD), Cmp(Unequal, s, SYM_NO)}
  }

  ghost predicate ForcesAt(e: Expr, p: Path, s: Symbol)
    requires IsLeaf(Conj, e, p)
  {
    SpinePath(Conj, e, p);
    Forces(At(e, p), s)
  }

  /** An expression depends on s exactly if one of its and-ed operands has such a form. */
  lemma {:induction false} DependsExact(e: Expr, s: Symbol)
    ensures DependsSymbol(e, s) <==> exists p :: IsLeaf(Conj, e, p) && ForcesAt(e, p, s)
  {
    if DependsSymbol(e, s) { var p := DependsAt(e, s); }
    forall p | IsLeaf(Conj, e, p) && ForcesAt(e, p, s) ensures DependsSymbol(e, s) { LeafDepends(e, p, s); }
  }

  lemma {:induction false} DependsAt(e: Expr, s: Symbol) returns (p: Path)
    requires DependsSymbol(e, s)
    ensures IsLeaf(Conj, e, p) && ForcesAt(e, p, s)
  {
    p := [];
    if e.Bin? {
      var d := if DependsSymbol(e.left, s) then L else R;
      var q := DependsAt(if d == L then e.left else e.right, s);
      p := [d] + q;
      assert p[1..] == q;
    }
  }

  lemma {:induction false} LeafDepends(e: Expr, p: Path, s: Symbol)
    requires IsLeaf(Conj, e, p) && ForcesAt(e, p, s)
    ensures DependsSymbol(e, s)
    decreases p
  {
    if p != [] { LeafDepends(if p[0] == L then e.left else e.right, p[1..], s); }
  }

  /** s is at the place p. */
  predicate Mentioned(e: Expr, p: Path, s: Symbol)
    requires ValidPath(e, p)
  {
    At(e, p) == Sym(s) || (At(e, p).Cmp? && (At(e, p).lhs == s || At(e, p).rhs == s))
  }

  /** A symbol is found exactly if it occurs, alone or in a comparison. */
  lemma {:induction false} ContainsExact(e: Expr, s: Symbol)
    ensures ContainsSymbol(e, s) <==> exists p :: ValidPath(e, p) && Mentioned(e, p, s)
  {
    if ContainsSymbol(e, s) { var p := ContainsAt(e, s); }
    forall p | ValidPath(e, p) && Mentioned(e, p, s) ensures ContainsSymbol(e, s) { MentionedContains(e, p, s); }
  }

  lemma {:induction false} ContainsAt(e: Expr, s: Symbol) returns (p: Path)
    requires ContainsSymbol(e, s)
    ensures ValidPath(e, p) && Mentioned(e, p, s)
  {
    p := [];
    if e.Bin? || e.Not? {
      var d := if e.Not? || ContainsSymbol(e.left, s) then L else R;
      var q := ContainsAt(if e.Not? then e.arg else if d == L then e.left else e.right, s);
      p := [d] + q;
      assert p[1..] == q;
    }
  }

  lemma {:induction false} MentionedContains(e: Expr, p: Path, s: Symbol)
    requires ValidPath(e, p) && Mentioned(e, p, s)
    ensures ContainsSymbol(e, s)
    decreases p
  {
    if p != [] {
      MentionedContains(if e.Not? then e.arg else if p[0] == L then e.left else e.right, p[1..], s);
    }
  }

  /** A symbol that does not occur in e has no influence on it. */
  lemma {:induction false} EvalAgrees(e: Expr, v: Valuation, w: Valuation)
    requires forall s: Symbol :: ContainsSymbol(e, s) ==> v(s) == w(s)
    ensures Eval(e, v) == Eval(e, w)
  {
    match e
    case Bin(_, l, r) => EvalAgrees(l, v, w); EvalAgrees(r, v, w);
    case Not(a) => EvalAgrees(a, v, w);
    case Cmp(_, l, r) => assert ContainsSymbol(e, l) && ContainsSymbol(e, r);
    case Sym(s) => assert ContainsSymbol(e, s);
  }
}
