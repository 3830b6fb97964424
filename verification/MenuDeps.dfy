/** The expression work of menu_finalize (scripts/kconfig/menu.c): combining a
    condition with the enclosing one, and deciding whether an entry depends on
    the one before it. */
module MenuDependencies {
  import opened Exprs
  import opened ExprEquality
  import opened ExprDuplicates
  import opened ExprNormalisation

  /** expr_alloc_and and expr_alloc_or: NULL is left out. */
  function AllocAnd(a: Option<Expr>, b: Option<Expr>): Option<Expr> {
    if a.None? then b else if b.None? then a else Some(Bin(Conj, a.value, b.value))
  }

  function AllocOr(a: Option<Expr>, b: Option<Expr>): Option<Expr> {
    if a.None? then b else if b.None? then a else Some(Bin(Disj, a.value, b.value))
  }

  lemma AllocAndValue(a: Option<Expr>, b: Option<Expr>, v: Valuation)
    ensures EvalOpt(AllocAnd(a, b), v) == TriAnd(EvalOpt(a, v), EvalOpt(b, v))
  {
  }

  predicate NormalOpt(e: Option<Expr>) { e.Some? ==> NegationNormal(e.value) }

  predicate OrderableOpt(e: Option<Expr>, v: Valuation) { e.Some? ==> AllOrderable(e.value, v) }

  /** basedep && cond, as menu_finalize rewrites it: transform, conjoin, eliminate
      duplicates and, for anything but a tristate symbol, trans_bool. Reduced to
      NULL only when both are; free of operands that have to be joined and, after
      trans_bool, of tests against n. */
  method Conjoin(rw: Rewriter, base: Option<Expr>, cond: Option<Expr>, promote: bool) returns (r: Option<Expr>)
    modifies rw
    ensures NormalOpt(base) ==> NormalOpt(r)
    ensures forall v: Valuation | WellFormed(v) && OrderableOpt(cond, v) ::
              if promote then
                NormalOpt(base) ==> Promote(EvalOpt(r, v)) == Promote(TriAnd(EvalOpt(base, v), EvalOpt(cond, v)))
              else EvalOpt(r, v) == TriAnd(EvalOpt(base, v), EvalOpt(cond, v))
    ensures r.Some? && !promote ==> NoTwins(r.value)
    ensures r.Some? && promote ==> Testless(r.value) && exists x :: NoTwins(x) && r.value == TransBool(x)
    ensures rw.transCount == old(rw.transCount)
  {
    var t: Option<Expr> := None;
    if cond.Some? {
      var tree := new ExprTree(cond.value);
      TransformAt(tree, []);
      TransformNormal(cond.value);
      t := Some(tree.root);
    }
    forall v: Valuation | WellFormed(v) && OrderableOpt(cond, v)
      ensures EvalOpt(t, v) == EvalOpt(cond, v)
    {
      if cond.Some? { TransformSound(cond.value, v); }
    }
    r := AllocAnd(base, t);
    if r.Some? {
      ghost var whole := r;
      var tree := new ExprTree(r.value);
      EliminateDups(rw, tree);
      ghost var reduced := tree.root;
      if promote {
        TransBoolAt(tree, []);
        TransBoolTestless(reduced);
      }
      r := Some(tree.root);
      forall v: Valuation | WellFormed(v) && OrderableOpt(cond, v)
        ensures if promote then
                  NormalOpt(base) ==> Promote(EvalOpt(r, v)) == Promote(TriAnd(EvalOpt(base, v), EvalOpt(cond, v)))
                else EvalOpt(r, v) == TriAnd(EvalOpt(base, v), EvalOpt(cond, v))
      {
        AllocAndValue(base, t, v);
        assert Eval(whole.value, v) == Eval(reduced, v);
        if promote && NormalOpt(base) { TransBoolPromotes(reduced, v); }
      }
      if NormalOpt(base) && promote {
        TransBoolNormal(reduced);
      }
    }
  }

  lemma {:induction false} TransBoolNormal(e: Expr)
    requires NegationNormal(e)
    ensures NegationNormal(TransBool(e))
  {
    if e.Bin? { TransBoolNormal(e.left); TransBoolNormal(e.right); }
  }

  lemma {:induction false} TransCompareOrderable(e: Expr, rel: Relation, k: Tristate, v: Valuation)
    requires AllOrderable(e, v) && (rel == Equal || rel == Unequal)
    ensures AllOrderable(TransCompare(e, rel, k), v)
  {
    match e
    case Bin(_, l, r) => TransCompareOrderable(l, Equal, k, v); TransCompareOrderable(r, Equal, k, v);
    case Not(a) => TransCompareOrderable(a, Complement(rel), k, v);
    case _ =>
  }

  /** The two-valued test "e is not n", normalised and without duplicates:
      expr_eliminate_dups(expr_transform(expr_trans_compare(e, !=, n))). */
  ghost function NotNoForm(e: Option<Expr>): (r: Expr)
    ensures NegationNormal(r) && Settled(r)
    ensures Settled(Transform(TransCompareOpt(e, Unequal, NO))) ==> r == Transform(TransCompareOpt(e, Unequal, NO))
    ensures forall v: Valuation | WellFormed(v) && OrderableOpt(e, v) ::
              Eval(r, v) == Eval(TransCompareOpt(e, Unequal, NO), v)
  {
    NotNoValue(e);
    TransformNormal(TransCompareOpt(e, Unequal, NO));
    Deduplicated(Transform(TransCompareOpt(e, Unequal, NO)))
  }

  lemma NotNoValue(e: Option<Expr>)
    ensures forall v: Valuation | WellFormed(v) && OrderableOpt(e, v) ::
              var c := TransCompareOpt(e, Unequal, NO); Eval(Deduplicated(Transform(c)), v) == Eval(c, v)
  {
    var c := TransCompareOpt(e, Unequal, NO);
    forall v: Valuation | WellFormed(v) && OrderableOpt(e, v)
      ensures Eval(Deduplicated(Transform(c)), v) == Eval(c, v)
    {
      if e.Some? { TransCompareOrderable(e.value, Unequal, NO, v); }
      TransformSound(c, v);
      assert Equiv(Transform(c), Deduplicated(Transform(c)));
    }
  }

  method NotNoTest(rw: Rewriter, e: Option<Expr>) returns (r: Expr)
    modifies rw
    ensures r == NotNoForm(e)
    ensures rw.transCount == old(rw.transCount)
  {
    var tree := new ExprTree(TransCompareOpt(e, Unequal, NO));
    TransformAt(tree, []);
    EliminateDups(rw, tree);
    r := tree.root;
  }

  /** Why menu_finalize may put an entry with condition dep under the entry of
      symbol s whose prompt has condition pdep. */
  ghost predicate NestJustified(pdep: Option<Expr>, s: Symbol, dep: Expr, v: Valuation) {
    && ContainsSymbol(dep, s)
    && (DependsSymbol(dep, s) ||
        (OrderableOpt(pdep, v) && AllOrderable(dep, v) ==>
           Eval(TransCompare(dep, Unequal, NO), v) <= Eval(TransCompareOpt(pdep, Unequal, NO), v)))
  }

  /** What that means for the two entries: an entry nested because it depends on the
      symbol is not n only where the symbol is not n; for one nested by comparing the two
      tests the parent prompt is not n wherever the entry is not n, if and only if it is
      not n where the entry is m and reads as n. */
  lemma NestMeans(pdep: Option<Expr>, s: Symbol, dep: Expr, v: Valuation)
    requires WellFormed(v) && NestJustified(pdep, s, dep, v) && TwoOrThreeValued(s.typ)
    requires OrderableOpt(pdep, v) && AllOrderable(dep, v)
    requires Typed(dep) && (pdep.Some? ==> Typed(pdep.value))
    ensures DependsSymbol(dep, s) ==> (Eval(dep, v) != NO ==> v(s).tri != NO)
    ensures !DependsSymbol(dep, s) ==>
              ((Eval(dep, v) != NO ==> EvalOpt(pdep, v) != NO)
               <==> (Eval(dep, v) == MOD && Reading(dep, NO, v) == NO ==> EvalOpt(pdep, v) != NO))
  {
    if DependsSymbol(dep, s) {
      DependsSound(dep, s, v);
    } else {
      TransCompareReads(dep, Unequal, NO, v);
      ReadingNear(dep, NO, v);
      if pdep.Some? {
        TransCompareReads(pdep.value, Unequal, NO, v);
        ReadingNear(pdep.value, NO, v);
      } else {
        assert SymOk(SYM_NO, v(SYM_NO));
      }
    }
  }

  /** The decision of menu_finalize: the condition dep mentions the symbol, and it depends
      on it or the elimination of what the two tests have in common leaves y of the
      parent's. */
  ghost predicate Nests(pdep: Option<Expr>, s: Symbol, dep: Option<Expr>) {
    && dep.Some? && ContainsSymbol(dep.value, s)
    && (DependsSymbol(dep.value, s) || EliminateEq(NotNoForm(dep), NotNoForm(pdep)).1 == Sym(SYM_YES))
  }

  /** Whatever is nested is so for one of the two reasons, in every valuation. */
  lemma NestSound(pdep: Option<Expr>, s: Symbol, dep: Option<Expr>, v: Valuation)
    requires WellFormed(v) && Nests(pdep, s, dep)
    ensures NestJustified(pdep, s, dep.value, v)
  {
    if !DependsSymbol(dep.value, s) {
      EliminateEqReflectsOrder(NotNoForm(dep), NotNoForm(pdep), v);
      assert SymOk(SYM_YES, v(SYM_YES));
    }
  }

  /** Nothing that follows from its form is refused: a condition that mentions the symbol
      and whose test is the one of the prompt, and-ed with anything, is accepted, unless n
      is an operand of the prompt's. */
  lemma NestComplete(pdep: Option<Expr>, s: Symbol, dep: Option<Expr>, x: Expr)
    requires dep.Some? && ContainsSymbol(dep.value, s) && NotAbsorbed(Conj, NotNoForm(pdep))
    requires NotNoForm(dep) in {Bin(Conj, x, NotNoForm(pdep)), Bin(Conj, NotNoForm(pdep), x)}
    ensures Nests(pdep, s, dep)
  {
    EliminateEqComplete(x, NotNoForm(pdep));
  }

  /** Where the condition negates an m the nested entry can be visible under a parent
      that is not: !a is m when a is m, but reads as n, and a = n, the parent's condition,
      is n. The code does nest it. */
  lemma NestNegatedMod(a: Symbol, s: Symbol, v: Valuation)
    requires WellFormed(v) && a.typ == TTristate && s.typ == TTristate && a != s
    requires v(a).tri == MOD && v(s).tri != NO
    ensures var dep, pdep := NegatedEntry(a, s), Some(Cmp(Equal, a, SYM_NO));
            NestJustified(pdep, s, dep, v) && Eval(dep, v) != NO && EvalOpt(pdep, v) == NO &&
            Nests(pdep, s, Some(dep))
  {
    var dep, pdep := NegatedEntry(a, s), Cmp(Equal, a, SYM_NO);
    assert SymOk(SYM_YES, v(SYM_YES));
    ValueSymbolTest(a, Equal, NO, v);
    TransCompareReads(dep, Unequal, NO, v);
    assert ContainsSymbol(dep.right.left, s) && ContainsSymbol(dep.right, s);
    assert Reading(dep.left, NO, v) == NO && Eval(dep.left, v) == MOD && Eval(dep.right, v) == YES;
    NegatedTests(a, s);
  }

  function NegatedEntry(a: Symbol, s: Symbol): Expr { Bin(Conj, Not(Sym(a)), Bin(Disj, Sym(s), Sym(SYM_YES))) }

  /** The test of that entry, normalised. */
  function NegatedForm(a: Symbol, s: Symbol): Expr {
    Bin(Conj, Cmp(Equal, a, SYM_NO), Bin(Disj, Cmp(Unequal, s, SYM_NO), Cmp(Unequal, SYM_YES, SYM_NO)))
  }

  lemma NegatedTransformed(a: Symbol, s: Symbol)
    requires a.typ == TTristate && s.typ == TTristate
    ensures Transform(TransCompare(NegatedEntry(a, s), Unequal, NO)) == NegatedForm(a, s)
  {
    var dep := NegatedEntry(a, s);
    var x, y, z := Cmp(Unequal, a, SYM_NO), Cmp(Equal, s, SYM_NO), Cmp(Equal, SYM_YES, SYM_NO);
    var c := Bin(Disj, x, Bin(Conj, y, z));
    assert TransCompare(dep, Unequal, NO) == Not(c) by {
      assert TransCompare(dep.left, Equal, NO) == TransCompare(Sym(a), Unequal, NO) == x;
      assert TransCompare(dep.right, Equal, NO) == Bin(Conj, y, z);
    }
    assert Transform(c) == c by {
      assert Transform(x) == x;
      assert Transform(Bin(Conj, y, z)) == Bin(Conj, Transform(y), Transform(z)) == Bin(Conj, y, z);
    }
    assert Transform(Not(Bin(Conj, y, z))) == NegatedForm(a, s).right by {
      assert Transform(Bin(Conj, y, z)) == Bin(Conj, y, z);
      assert Transform(Not(y)) == Cmp(Unequal, s, SYM_NO) && Transform(Not(z)) == Cmp(Unequal, SYM_YES, SYM_NO);
    }
    assert Transform(Not(x)) == Cmp(Equal, a, SYM_NO);
  }

  /** The two tests have no duplicates, and eliminating what they have in common leaves
      y of the parent's. */
  lemma NegatedTests(a: Symbol, s: Symbol)
    requires a.typ == TTristate && s.typ == TTristate && a != s
    ensures var dep, pdep := NegatedEntry(a, s), Some(Cmp(Equal, a, SYM_NO));
            !DependsSymbol(dep, s) && Nests(pdep, s, Some(dep))
  {
    var dep, p, t := NegatedEntry(a, s), Cmp(Equal, a, SYM_NO), NegatedForm(a, s);
    NegatedTransformed(a, s);
    SettledTest(p, t.right.left, t.right.right);
    assert Settled(p) && TransCompareOpt(Some(p), Unequal, NO) == p && Transform(p) == p;
    assert NotNoForm(Some(dep)) == t && NotNoForm(Some(p)) == p;
    NegatedEliminated(a, s);
    assert ContainsSymbol(dep.right.left, s) && ContainsSymbol(dep.right, s) && !DependsSymbol(dep.left, s);
  }

  lemma NegatedEliminated(a: Symbol, s: Symbol)
    requires a.typ == TTristate
    ensures EliminateEq(NegatedForm(a, s), Cmp(Equal, a, SYM_NO)).1 == Sym(SYM_YES)
  {
    var p, t := Cmp(Equal, a, SYM_NO), NegatedForm(a, s);
    assert ElimEq(Conj, t, p) == (Bin(Conj, Sym(SYM_YES), t.right), Sym(SYM_YES)) by {
      assert ElimEq(Conj, p, p) == (Sym(SYM_YES), Sym(SYM_YES));
      assert ElimEq(Conj, t.right, Sym(SYM_YES)) == (t.right, Sym(SYM_YES));
    }
  }

  /** p && (q || r) has no duplicates if the comparisons are of different symbols. */
  lemma SettledTest(p: Expr, q: Expr, r: Expr)
    requires p.Cmp? && q.Cmp? && r.Cmp? && q != r && !SameSubject(q, r) && !SameSubject(r, q)
    ensures Settled(Bin(Conj, p, Bin(Disj, q, r)))
  {
    TwoLeaves(Disj, q, r);
    TwoLeaves(Conj, p, Bin(Disj, q, r));
  }

  /** The test by which menu_finalize decides to put a following entry, with
      condition dep, under the entry of symbol s. */
  method ShouldNest(rw: Rewriter, pdep: Option<Expr>, basedep: Expr, s: Symbol, dep: Option<Expr>) returns (nest: bool)
    requires basedep == NotNoForm(pdep)
    modifies rw
    ensures nest <==> Nests(pdep, s, dep)
    ensures nest ==> dep.Some? && forall v: Valuation | WellFormed(v) :: NestJustified(pdep, s, dep.value, v)
  {
    if dep.None? || !ContainsSymbol(dep.value, s) {
      return false;
    }
    if DependsSymbol(dep.value, s) {
      return true;
    }
    var d := NotNoTest(rw, dep);
    var t1 := new ExprTree(d);
    var t2 := new ExprTree(basedep);
    rw.EliminateCommon(t1, t2);
    nest := t2.root == Sym(SYM_YES);
    if nest {
      forall v: Valuation | WellFormed(v) ensures NestJustified(pdep, s, dep.value, v) { NestSound(pdep, s, dep, v); }
    }
  }
}
