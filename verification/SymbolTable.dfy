/** sym_calc_value and its helpers (scripts/kconfig/symbol.c) as they run: each
    symbol is calculated once, on demand, while others are being calculated. */
module SymbolTables {
  import opened Exprs
  import opened SymbolValues

  /** The calculated fields of struct symbol. */
  datatype Calculated = Calculated(curr: Tristate, visible: Tristate, dirTri: Tristate, revTri: Tristate)

  type Fields = map<Symbol, Calculated>

  /** A table together with a ranking of its dependency graph, if that is acyclic. */
  datatype Graph = Graph(t: Table, acyclic: bool, rank: Symbol -> nat)

  ghost predicate GraphOk(g: Graph) { g.acyclic ==> Ranked(g.t, g.rank) }

  ghost predicate StateOk(g: Graph, valid: set<Symbol>, f: Fields) {
    GraphOk(g) && f.Keys == g.t.defs.Keys && valid <= g.t.defs.Keys
  }

  /** What the definition without memory says about s. */
  ghost function Right(g: Graph, s: Symbol): Calculated
    requires GraphOk(g) && g.acyclic && s in g.t.defs
  {
    var v := Values(g.t, g.rank);
    Calculated(Value(g.t, g.rank, s), Visible(g.t, s, v), DirTri(g.t, s, v), RevTri(g.t, s, v))
  }

  /** All calculated symbols of rank below n are right. Symbols of higher rank may
      be in the middle of their own calculation. */
  ghost predicate Sound(g: Graph, valid: set<Symbol>, f: Fields, n: nat)
    requires StateOk(g, valid, f)
  {
    g.acyclic ==> forall s :: s in valid && g.rank(s) < n ==> f[s] == Right(g, s)
  }

  /** Every calculated symbol has its right value. */
  ghost predicate FieldsRight(g: Graph, valid: set<Symbol>, f: Fields) {
    StateOk(g, valid, f) && (g.acyclic ==> forall s :: s in valid ==> f[s] == Right(g, s))
  }

  /** What every calculation with bound n does: what was calculated stays, and what
      is new has a rank below n and is right. */
  ghost predicate Kept(g: Graph, valid: set<Symbol>, f: Fields, valid': set<Symbol>, f': Fields, n: nat) {
    && StateOk(g, valid, f) && StateOk(g, valid', f') && valid <= valid'
    && (forall s :: s in valid ==> f'[s] == f[s])
    && (g.acyclic ==> forall s :: s in valid' && s !in valid ==> g.rank(s) < n && f'[s] == Right(g, s))
  }

  lemma KeptTrans(g: Graph, v0: set<Symbol>, f0: Fields, v1: set<Symbol>, f1: Fields, v2: set<Symbol>, f2: Fields,
                  n: nat)
    requires Kept(g, v0, f0, v1, f1, n) && Kept(g, v1, f1, v2, f2, n)
    ensures Kept(g, v0, f0, v2, f2, n)
  {
  }

  lemma SoundKept(g: Graph, v0: set<Symbol>, f0: Fields, v1: set<Symbol>, f1: Fields, n: nat)
    requires Kept(g, v0, f0, v1, f1, n) && Sound(g, v0, f0, n)
    ensures Sound(g, v1, f1, n)
  {
  }

  /** A field of a symbol in the middle of its calculation changes nothing else. */
  lemma KeptUpdate(g: Graph, v0: set<Symbol>, f0: Fields, v1: set<Symbol>, f1: Fields, s: Symbol, c: Calculated, n: nat)
    requires s in v0 && Kept(g, v0, f0, v1, f1, n)
    ensures Kept(g, v0, f0[s := c], v1, f1[s := c], n)
  {
    assert s in v1 && s in f0 && s in f1;
    forall x | x in v0 ensures f1[s := c][x] == f0[s := c][x] {
      assert f1[x] == f0[x];
    }
  }

  lemma SoundUpdate(g: Graph, valid: set<Symbol>, f: Fields, s: Symbol, c: Calculated, n: nat)
    requires StateOk(g, valid, f) && s in g.t.defs && Sound(g, valid, f, n) && (g.acyclic ==> n <= g.rank(s))
    ensures StateOk(g, valid, f[s := c]) && Sound(g, valid, f[s := c], n)
  {
  }

  /** Once s itself is calculated, starting from a state in which it was not. */
  lemma KeptDone(g: Graph, v0: set<Symbol>, f0: Fields, v1: set<Symbol>, f1: Fields, s: Symbol, fs: Fields, n: nat)
    requires StateOk(g, v0, f0) && s in g.t.defs && s !in v0 && fs.Keys == f0.Keys
    requires forall x :: x in v0 ==> fs[x] == f0[x]
    requires Kept(g, v0 + {s}, fs, v1, f1, g.rank(s))
    requires g.acyclic ==> g.rank(s) < n && f1[s] == Right(g, s)
    ensures Kept(g, v0, f0, v1, f1, n)
  {
    var w := v0 + {s};
    assert forall x :: x in w <==> x in v0 || x == s;
  }

  lemma CompareAgrees(rel: Relation, l: Symbol, r: Symbol, v: Valuation, w: Valuation)
    requires v(l) == w(l) && v(r) == w(r)
    ensures Compare(rel, l, r, v) == Compare(rel, l, r, w)
  {
  }

  class SymbolTable {
    const defs: map<Symbol, SymDef>
    const modules: Tristate
    const outside: Valuation
    /** def[S_DEF_USER].tri, for symbols with SYMBOL_DEF_USER */
    var user: map<Symbol, Tristate>
    /** symbols with SYMBOL_VALID */
    var valid: set<Symbol>
    var syms: Fields
    ghost const acyclic: bool
    ghost const rank: Symbol -> nat

    /** A table just read: nothing is calculated yet. */
    constructor (t: Table, ghost acyclic: bool, ghost rank: Symbol -> nat)
      requires acyclic ==> Ranked(t, rank)
      ensures Valid() && Tab() == t && valid == {} && this.acyclic == acyclic && this.rank == rank
    {
      defs, modules, outside, user := t.defs, t.modules, t.outside, t.user;
      valid := {};
      syms := map s | s in t.defs :: Calculated(NO, NO, NO, NO);
      this.acyclic, this.rank := acyclic, rank;
    }

    function Tab(): Table
      reads this`user
    {
      Table(defs, user, modules, outside)
    }

    ghost function G(): Graph
      reads this`user
    {
      Graph(Tab(), acyclic, rank)
    }

    ghost predicate Valid()
      reads this
    {
      StateOk(G(), valid, syms)
    }

    /** expr_calc_value */
    method ExprCalc(e: Expr, ghost n: nat) returns (r: Tristate)
      requires Valid() && Sound(G(), valid, syms, n) && (acyclic ==> Below(defs.Keys, rank, e, n))
      modifies this`valid, this`syms
      ensures Kept(G(), old(valid), old(syms), valid, syms, n)
      ensures acyclic ==> r == Eval(e, Values(Tab(), rank))
      decreases defs.Keys - valid, 1, Size(e)
    {
      match e
      case Sym(s) =>
        r := SymTri(s, n);
      case Bin(t, l, rr) =>
        var val1 := ExprCalc(l, n);
        SoundKept(G(), old(valid), old(syms), valid, syms, n);
        ghost var v1, f1 := valid, syms;
        var val2 := ExprCalc(rr, n);
        KeptTrans(G(), old(valid), old(syms), v1, f1, valid, syms, n);
        r := Apply(t, val1, val2);
      case Not(a) =>
        var val1 := ExprCalc(a, n);
        r := TriNot(val1);
      case Cmp(rel, l, rr) =>
        r := CompareCalc(rel, l, rr, n);
    }

    /** The comparisons: both symbols are calculated, then their strings compared. */
    method CompareCalc(rel: Relation, l: Symbol, r: Symbol, ghost n: nat) returns (res: Tristate)
      requires Valid() && Sound(G(), valid, syms, n)
      requires acyclic ==> (l in defs ==> rank(l) < n) && (r in defs ==> rank(r) < n)
      modifies this`valid, this`syms
      ensures Kept(G(), old(valid), old(syms), valid, syms, n)
      ensures acyclic ==> res == Compare(rel, l, r, Values(Tab(), rank))
      decreases defs.Keys - valid, 1, 0, 1
    {
      var t1 := SymTri(l, n);
      SoundKept(G(), old(valid), old(syms), valid, syms, n);
      ghost var v1, f1 := valid, syms;
      var t2 := SymTri(r, n);
      KeptTrans(G(), old(valid), old(syms), v1, f1, valid, syms, n);
      var tab := Tab();
      var strings: Valuation := (s: Symbol) => if s == l && l in defs then TableVal(tab, t1)
                                     else if s == r && r in defs then TableVal(tab, t2) else outside(s);
      res := Compare(rel, l, r, strings);
      if acyclic {
        CompareAgrees(rel, l, r, strings, Values(Tab(), rank));
      }
    }

    /** sym_calc_value(s) and then s->curr.tri, also for symbols not in the table. */
    method SymTri(s: Symbol, ghost n: nat) returns (r: Tristate)
      requires Valid() && Sound(G(), valid, syms, n) && (acyclic && s in defs ==> rank(s) < n)
      modifies this`valid, this`syms
      ensures Kept(G(), old(valid), old(syms), valid, syms, n)
      ensures acyclic ==> r == Values(Tab(), rank)(s).tri
      decreases defs.Keys - valid, 1, 0, 0
    {
      if s in defs {
        SymCalc(s, n);
        r := syms[s].curr;
        SoundKept(G(), old(valid), old(syms), valid, syms, n);
      } else {
        r := outside(s).tri;
      }
    }

    method ExprCalcOpt(e: Option<Expr>, ghost n: nat) returns (r: Tristate)
      requires Valid() && Sound(G(), valid, syms, n) && (acyclic ==> BelowOpt(defs.Keys, rank, e, n))
      modifies this`valid, this`syms
      ensures Kept(G(), old(valid), old(syms), valid, syms, n)
      ensures acyclic ==> r == EvalOpt(e, Values(Tab(), rank))
      decreases defs.Keys - valid, 2
    {
      if e.None? {
        return YES;
      }
      r := ExprCalc(e.value, n);
    }

    /** The prompt loop of sym_calc_visibility. */
    method AnyPromptVisible(ps: seq<Option<Expr>>, ghost n: nat) returns (tri: Tristate)
      requires Valid() && Sound(G(), valid, syms, n)
      requires acyclic ==> forall i :: 0 <= i < |ps| ==> BelowOpt(defs.Keys, rank, ps[i], n)
      modifies this`valid, this`syms
      ensures Kept(G(), old(valid), old(syms), valid, syms, n)
      ensures acyclic ==> tri == AnyPrompt(ps, Values(Tab(), rank))
      decreases defs.Keys - valid, 3
    {
      tri := NO;
      var i := 0;
      while i < |ps|
        invariant 0 <= i <= |ps| && Kept(G(), old(valid), old(syms), valid, syms, n)
        invariant acyclic ==> tri == AnyPrompt(ps[..i], Values(Tab(), rank))
      {
        SoundKept(G(), old(valid), old(syms), valid, syms, n);
        ghost var v1, f1 := valid, syms;
        var t := ExprCalcOpt(ps[i], n);
        KeptTrans(G(), old(valid), old(syms), v1, f1, valid, syms, n);
        tri := TriOr(tri, t);
        assert ps[..i + 1][..i] == ps[..i] && ps[..i + 1][i] == ps[i];
        i := i + 1;
      }
      assert ps[..i] == ps;
    }

    /** sym_get_default_prop and the use sym_calc_value makes of the property found. */
    method FirstDefault(ds: seq<(Option<Expr>, Expr)>, ghost n: nat) returns (tri: Tristate)
      requires Valid() && Sound(G(), valid, syms, n)
      requires acyclic ==> forall i :: 0 <= i < |ds| ==>
                 BelowOpt(defs.Keys, rank, ds[i].0, n) && Below(defs.Keys, rank, ds[i].1, n)
      modifies this`valid, this`syms
      ensures Kept(G(), old(valid), old(syms), valid, syms, n)
      ensures acyclic ==> tri == DefaultTri(ds, Values(Tab(), rank))
      decreases defs.Keys - valid, 3
    {
      var i := 0;
      while i < |ds|
        invariant 0 <= i <= |ds| && Kept(G(), old(valid), old(syms), valid, syms, n)
        invariant acyclic ==> DefaultTri(ds, Values(Tab(), rank)) == DefaultTri(ds[i..], Values(Tab(), rank))
      {
        SoundKept(G(), old(valid), old(syms), valid, syms, n);
        ghost var v1, f1 := valid, syms;
        var cond := ExprCalcOpt(ds[i].0, n);
        KeptTrans(G(), old(valid), old(syms), v1, f1, valid, syms, n);
        if cond != NO {
          SoundKept(G(), old(valid), old(syms), valid, syms, n);
          v1, f1 := valid, syms;
          var val := ExprCalc(ds[i].1, n);
          KeptTrans(G(), old(valid), old(syms), v1, f1, valid, syms, n);
          return TriAnd(val, cond);
        }
        i := i + 1;
      }
      return NO;
    }

    /** The calculation of s has begun in the state v0, f0 and has got to the current
        one: besides the fields of s itself, only right values have been added. */
    ghost predicate Calculating(s: Symbol, v0: set<Symbol>, f0: Fields)
      reads this
    {
      && s in v0 && s in syms && StateOk(G(), v0, f0)
      && Kept(G(), v0, f0[s := syms[s]], valid, syms, rank(s)) && Sound(G(), v0, f0, rank(s))
    }

    /** Storing into a field of s. */
    method Store(s: Symbol, c: Calculated, ghost v0: set<Symbol>, ghost f0: Fields)
      requires Calculating(s, v0, f0)
      modifies this`syms
      ensures syms == old(syms)[s := c] && Calculating(s, v0, f0)
    {
      StoreKept(G(), v0, f0, valid, syms, s, c);
      syms := syms[s := c];
    }

    /** sym_calc_visibility: any prompt visible? */
    method CalcPrompts(s: Symbol, ghost v0: set<Symbol>, ghost f0: Fields)
      requires Calculating(s, v0, f0)
      modifies this`valid, this`syms
      ensures Calculating(s, v0, f0) && old(valid) <= valid
      ensures syms[s] == old(syms[s]).(visible := syms[s].visible)
      ensures acyclic ==> syms[s].visible == Right(G(), s).visible
      decreases defs.Keys - valid, 4
    {
      CalculatingSound(G(), v0, f0, valid, syms, s);
      ghost var v1, f1 := valid, syms;
      var vis := AnyPromptVisible(defs[s].prompts, rank(s));
      KeptTrans(G(), v0, f0[s := f1[s]], v1, f1, valid, syms, rank(s));
      if vis == MOD && (s.typ != TTristate || modules == NO) {
        vis := YES;
      }
      Store(s, syms[s].(visible := vis), v0, f0);
    }

    /** sym_calc_visibility: dir_dep, y when there is none */
    method CalcDir(s: Symbol, ghost v0: set<Symbol>, ghost f0: Fields)
      requires Calculating(s, v0, f0)
      modifies this`valid, this`syms
      ensures Calculating(s, v0, f0) && old(valid) <= valid
      ensures syms[s] == old(syms[s]).(dirTri := syms[s].dirTri)
      ensures acyclic ==> syms[s].dirTri == Right(G(), s).dirTri
      decreases defs.Keys - valid, 4
    {
      CalculatingSound(G(), v0, f0, valid, syms, s);
      ghost var v1, f1 := valid, syms;
      var tri := ExprCalcOpt(defs[s].dirDep, rank(s));
      KeptTrans(G(), v0, f0[s := f1[s]], v1, f1, valid, syms, rank(s));
      if tri == MOD {
        tri := YES;
      }
      Store(s, syms[s].(dirTri := tri), v0, f0);
    }

    /** expr_calc_value of a condition of s. */
    method CalcCondition(e: Expr, s: Symbol, ghost v0: set<Symbol>, ghost f0: Fields) returns (tri: Tristate)
      requires Calculating(s, v0, f0) && (acyclic ==> Below(defs.Keys, rank, e, rank(s)))
      modifies this`valid, this`syms
      ensures Calculating(s, v0, f0) && old(valid) <= valid && syms[s] == old(syms[s])
      ensures acyclic ==> tri == Eval(e, Values(Tab(), rank))
      decreases defs.Keys - valid, 3
    {
      CalculatingSound(G(), v0, f0, valid, syms, s);
      ghost var v1, f1 := valid, syms;
      tri := ExprCalc(e, rank(s));
      KeptTrans(G(), v0, f0[s := f1[s]], v1, f1, valid, syms, rank(s));
    }

    /** sym_calc_visibility: rev_dep, n when there is none */
    method CalcRev(s: Symbol, ghost v0: set<Symbol>, ghost f0: Fields)
      requires Calculating(s, v0, f0)
      modifies this`valid, this`syms
      ensures Calculating(s, v0, f0) && old(valid) <= valid
      ensures syms[s] == old(syms[s]).(revTri := syms[s].revTri)
      ensures acyclic ==> syms[s].revTri == Right(G(), s).revTri
      decreases defs.Keys - valid, 4
    {
      var tri := NO;
      if defs[s].revDep.Some? {
        tri := CalcCondition(defs[s].revDep.value, s, v0, f0);
      }
      if tri == MOD && EffectiveType(s, modules) == TBoolean {
        tri := YES;
      }
      Store(s, syms[s].(revTri := tri), v0, f0);
    }

    /** sym_calc_visibility for a symbol being calculated. */
    method CalcVisibility(s: Symbol, ghost v0: set<Symbol>, ghost f0: Fields)
      requires Calculating(s, v0, f0)
      modifies this`valid, this`syms
      ensures Calculating(s, v0, f0) && old(valid) <= valid
      ensures acyclic ==> syms[s] == Right(G(), s).(curr := syms[s].curr)
      decreases defs.Keys - valid, 5
    {
      CalcPrompts(s, v0, f0);
      CalcDir(s, v0, f0);
      CalcRev(s, v0, f0);
    }

    /** What the defaults of s say. */
    method CalcDefault(s: Symbol, ghost v0: set<Symbol>, ghost f0: Fields) returns (tri: Tristate)
      requires Calculating(s, v0, f0)
      modifies this`valid, this`syms
      ensures Calculating(s, v0, f0) && old(valid) <= valid && syms[s] == old(syms[s])
      ensures acyclic ==> tri == DefaultTri(defs[s].defaults, Values(Tab(), rank))
      decreases defs.Keys - valid, 4, 0
    {
      CalculatingSound(G(), v0, f0, valid, syms, s);
      ghost var v1, f1 := valid, syms;
      tri := FirstDefault(defs[s].defaults, rank(s));
      KeptTrans(G(), v0, f0[s := f1[s]], v1, f1, valid, syms, rank(s));
    }

    /** The user value if the symbol is visible and has one, otherwise the default. */
    method CalcBase(s: Symbol, ghost v0: set<Symbol>, ghost f0: Fields) returns (tri: Tristate)
      requires Calculating(s, v0, f0)
      modifies this`valid, this`syms
      ensures Calculating(s, v0, f0) && old(valid) <= valid && syms[s] == old(syms[s])
      ensures acyclic ==>
                tri == if syms[s].visible != NO && s in user then TriAnd(user[s], syms[s].visible)
                       else DefaultTri(defs[s].defaults, Values(Tab(), rank))
      decreases defs.Keys - valid, 4, 1
    {
      if syms[s].visible != NO && s in user {
        return TriAnd(user[s], syms[s].visible);
      }
      tri := CalcDefault(s, v0, f0);
    }

    /** The rest of sym_calc_value, once the visibility is known. */
    method CalcTri(s: Symbol, ghost v0: set<Symbol>, ghost f0: Fields)
      requires Calculating(s, v0, f0)
      requires acyclic ==> syms[s] == Right(G(), s).(curr := syms[s].curr)
      modifies this`valid, this`syms
      ensures Calculating(s, v0, f0) && old(valid) <= valid
      ensures acyclic ==> syms[s] == Right(G(), s)
      decreases defs.Keys - valid, 5
    {
      var tri := CalcBase(s, v0, f0);
      tri := TriOr(tri, syms[s].revTri);
      if tri == MOD && EffectiveType(s, modules) == TBoolean {
        tri := YES;
      }
      if acyclic {
        RightCurr(G(), s, tri);
      }
      Store(s, syms[s].(curr := tri), v0, f0);
    }

    /** The VALID flag is set first. */
    method Begin(s: Symbol, ghost n: nat)
      requires Valid() && s in defs && s !in valid && Sound(G(), valid, syms, n) && (acyclic ==> rank(s) < n)
      modifies this`valid
      ensures valid == old(valid) + {s} && Calculating(s, valid, syms)
    {
      BeginKept(G(), valid, syms, s, n);
      valid := valid + {s};
    }

    /** sym_calc_value. The VALID flag is set before anything is calculated, so the
        recursion terminates on every dependency graph, and on an acyclic one every
        symbol that gets calculated gets the value of the definition without memory. */
    method SymCalc(s: Symbol, ghost n: nat)
      requires Valid() && s in defs && Sound(G(), valid, syms, n) && (acyclic ==> rank(s) < n)
      modifies this`valid, this`syms
      ensures s in valid && Kept(G(), old(valid), old(syms), valid, syms, n)
      decreases defs.Keys - valid, 0
    {
      if s in valid {
        return;
      }
      Begin(s, n);
      ghost var v0, f0 := valid, syms;
      CalcVisibility(s, v0, f0);
      // what a recursive call finds as the value
      Store(s, syms[s].(curr := NO), v0, f0);
      CalcTri(s, v0, f0);
      KeptDone(G(), old(valid), old(syms), valid, syms, s, f0[s := syms[s]], n);
    }

    /** Every calculated symbol has its right value. */
    ghost predicate AllRight()
      reads this
    {
      FieldsRight(G(), valid, syms)
    }

    /** sym_calc_value on any list of symbols, in any order. */
    method CalcInOrder(order: seq<Symbol>)
      requires AllRight() && forall s :: s in order ==> s in defs
      modifies this`valid, this`syms
      ensures AllRight() && old(valid) <= valid
      ensures forall s :: s in order ==> s in valid
      ensures acyclic ==> forall s :: s in order ==> syms[s].curr == Value(Tab(), rank, s)
    {
      var i := 0;
      while i < |order|
        invariant 0 <= i <= |order| && AllRight() && old(valid) <= valid
        invariant forall k :: 0 <= k < i ==> order[k] in valid
      {
        SymCalc(order[i], rank(order[i]) + 1);
        i := i + 1;
      }
    }

    /** sym_clear_all_valid */
    method ClearAllValid()
      requires Valid()
      modifies this`valid
      ensures valid == {} && AllRight()
    {
      valid := {};
    }

    /** What is stored after s, with the stored fields c, has been set to val: right, if
        the table is acyclic, exactly if the value was refused, or is a new one, or is
        the old one and lasting. */
    ghost predicate RightIf(c: Calculated, val: Tristate, ok: bool)
      reads this
    {
      Valid() && (AllRight() <==> (acyclic && ok && c.curr == val ==> Lasting(c.visible, c.revTri, val)))
    }

    /** sym_set_tristate_value */
    method SetTristateValue(s: Symbol, val: Tristate) returns (ok: bool)
      requires AllRight() && s in valid
      modifies this`user, this`valid
      ensures var c := old(syms[s]);
              var within := WithinRange(s, modules, c.visible, c.revTri, val);
              && (ok <==> c.curr == val || within)
              && (if ok then user == old(user)[s := val] else user == old(user) && valid == old(valid))
              && (acyclic && within ==> AllRight() && Value(Tab(), rank, s) == val)
              && (ok ==> valid == if c.curr != val then {} else old(valid))
      ensures RightIf(old(syms[s]), val, ok)
    {
      var c := syms[s];
      var oldval := c.curr;
      if oldval != val && !WithinRange(s, modules, c.visible, c.revTri, val) {
        return false;
      }
      ghost var g := G();
      user := user[s := val];
      assert G() == g.(t := SetUser(g.t, s, val));
      StoredRanked(g, valid, syms, s, val);
      if oldval == val {
        StoredSame(g, valid, syms, s);
      } else {
        ClearAllValid();
      }
      return true;
    }

    /** Set, recalculate what is not valid, read back. A value that is out of range is
        only accepted when it is the current one; nothing is recalculated then, and what
        is stored is what a new calculation would give if and only if the value is
        lasting. */
    method SetAndRead(s: Symbol, val: Tristate) returns (ok: bool, read: Tristate)
      requires AllRight() && s in valid
      modifies this
      ensures var c := old(syms[s]); ok <==> c.curr == val || WithinRange(s, modules, c.visible, c.revTri, val)
      ensures RightIf(old(syms[s]), val, ok)
      ensures acyclic && ok ==> read == val
      ensures user == if ok then old(user)[s := val] else old(user)
      ensures !ok ==> read == old(syms[s].curr)
    {
      ok := SetTristateValue(s, val);
      if s in valid {
        read := syms[s].curr;
      } else {
        read := CalcAndRead(s);
      }
    }

    /** sym_calc_value, then sym_get_tristate_value. */
    method CalcAndRead(s: Symbol) returns (read: Tristate)
      requires AllRight() && s in defs
      modifies this`valid, this`syms
      ensures AllRight() && s in syms && read == syms[s].curr
      ensures acyclic ==> read == Value(Tab(), rank, s)
    {
      SymCalc(s, rank(s) + 1);
      read := syms[s].curr;
    }
  }

  /** The state stays one after a user value has been stored, and a value in range is
      then the value of its symbol. */
  lemma StoredRanked(g: Graph, valid: set<Symbol>, f: Fields, s: Symbol, val: Tristate)
    requires FieldsRight(g, valid, f) && s in valid
    ensures var g' := g.(t := SetUser(g.t, s, val));
            && StateOk(g', valid, f)
            && (g.acyclic && WithinRange(s, g.t.modules, f[s].visible, f[s].revTri, val) ==>
                  Value(g'.t, g.rank, s) == val)
  {
    if g.acyclic {
      SetUserRanked(g.t, g.rank, s, val);
      if WithinRange(s, g.t.modules, f[s].visible, f[s].revTri, val) { SetThenRead(g.t, g.rank, s, val); }
    }
  }

  /** What is stored is right after the symbol has been set to the value it has, if and
      only if that is lasting. */
  lemma StoredSame(g: Graph, valid: set<Symbol>, f: Fields, s: Symbol)
    requires FieldsRight(g, valid, f) && s in valid
    ensures var g' := g.(t := SetUser(g.t, s, f[s].curr));
            && (FieldsRight(g', valid, f) <==> (g.acyclic ==> Lasting(f[s].visible, f[s].revTri, f[s].curr)))
            && (g.acyclic && WithinRange(s, g.t.modules, f[s].visible, f[s].revTri, f[s].curr) ==>
                  FieldsRight(g', valid, f))
  {
    StoredRanked(g, valid, f, s, f[s].curr);
    if g.acyclic { SameRight(g, s, valid); }
  }

  /** The values right before are right after a symbol has been set to the value it has,
      if and only if that is lasting. */
  lemma SameRight(g: Graph, s: Symbol, valid: set<Symbol>)
    requires GraphOk(g) && g.acyclic && s in valid && valid <= g.t.defs.Keys
    ensures Ranked(SetUser(g.t, s, Right(g, s).curr), g.rank)
    ensures var c, g' := Right(g, s), g.(t := SetUser(g.t, s, Right(g, s).curr));
            && (Lasting(c.visible, c.revTri, c.curr) ==> forall x :: x in valid ==> Right(g', x) == Right(g, x))
            && (!Lasting(c.visible, c.revTri, c.curr) ==> Right(g', s).curr != c.curr)
  {
    SetSameSelf(g.t, g.rank, s);
    if Lasting(Right(g, s).visible, Right(g, s).revTri, Right(g, s).curr) { LastingRight(g, s, valid); }
  }

  lemma LastingRight(g: Graph, s: Symbol, valid: set<Symbol>)
    requires GraphOk(g) && g.acyclic && s in valid && valid <= g.t.defs.Keys
    requires Lasting(Right(g, s).visible, Right(g, s).revTri, Right(g, s).curr)
    ensures Ranked(SetUser(g.t, s, Right(g, s).curr), g.rank)
    ensures var g' := g.(t := SetUser(g.t, s, Right(g, s).curr));
            forall x :: x in valid ==> Right(g', x) == Right(g, x)
  {
    var g' := g.(t := SetUser(g.t, s, Right(g, s).curr));
    SetUserRanked(g.t, g.rank, s, Right(g, s).curr);
    var v, v' := Values(g.t, g.rank), Values(g'.t, g.rank);
    forall y | y in g.t.defs ensures Value(g'.t, g.rank, y) == Value(g.t, g.rank, y) {
      SetSameValue(g.t, g.rank, s, y);
    }
    forall x | x in valid ensures Right(g', x) == Right(g, x) {
      ComputeBelow(g.t, g.rank, x, g.rank(x), v', v);
      EvalOptBelow(g.t, g.rank, g.t.defs[x].dirDep, g.rank(x), v', v);
    }
  }

  lemma RightCurr(g: Graph, s: Symbol, tri: Tristate)
    requires GraphOk(g) && g.acyclic && s in g.t.defs
    requires tri == Combine(g.t, s, Right(g, s).visible, Right(g, s).revTri,
                            DefaultTri(g.t.defs[s].defaults, Values(g.t, g.rank)))
    ensures Right(g, s).curr == tri
  {
    ValueSolves(g.t, g.rank, s);
  }

  lemma BeginKept(g: Graph, valid: set<Symbol>, f: Fields, s: Symbol, n: nat)
    requires StateOk(g, valid, f) && s in g.t.defs && s !in valid && Sound(g, valid, f, n)
    requires g.acyclic ==> g.rank(s) < n
    ensures var v0 := valid + {s};
            StateOk(g, v0, f) && Kept(g, v0, f[s := f[s]], v0, f, g.rank(s)) && Sound(g, v0, f, g.rank(s))
  {
    assert f[s := f[s]] == f;
  }

  lemma CalculatingSound(g: Graph, v0: set<Symbol>, f0: Fields, v1: set<Symbol>, f1: Fields, s: Symbol)
    requires s in v0 && s in f1 && StateOk(g, v0, f0) && Sound(g, v0, f0, g.rank(s))
    requires Kept(g, v0, f0[s := f1[s]], v1, f1, g.rank(s))
    ensures Sound(g, v1, f1, g.rank(s)) && s in v1
  {
    SoundUpdate(g, v0, f0, s, f1[s], g.rank(s));
    SoundKept(g, v0, f0[s := f1[s]], v1, f1, g.rank(s));
  }

  lemma StoreKept(g: Graph, v0: set<Symbol>, f0: Fields, v1: set<Symbol>, f1: Fields, s: Symbol, c: Calculated)
    requires s in v0 && s in f1 && StateOk(g, v0, f0)
    requires Kept(g, v0, f0[s := f1[s]], v1, f1, g.rank(s))
    ensures Kept(g, v0, f0[s := c], v1, f1[s := c], g.rank(s))
  {
    KeptUpdate(g, v0, f0[s := f1[s]], v1, f1, s, c, g.rank(s));
    assert f0[s := f1[s]][s := c] == f0[s := c];
  }
}
