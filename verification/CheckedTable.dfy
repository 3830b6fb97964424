/** The dependency checker and the evaluator together: on a table without reports
    every order of evaluation gives every symbol its one value. */
module CheckedTables {
  import opened Exprs
  import opened ExprNormalisation
  import opened MenuFinalisation
  import opened SymbolValues
  import opened SymbolTables
  import opened DependencyCheck

  /** x occurs in an expression sym_calc_value evaluates for a symbol. */
  ghost predicate DefMentions(d: SymDef, x: Symbol) {
    || MentionsOpt(d.dirDep, x) || MentionsOpt(d.revDep, x)
    || (exists i :: 0 <= i < |d.prompts| && MentionsOpt(d.prompts[i], x))
    || (exists i :: 0 <= i < |d.defaults| && (MentionsOpt(d.defaults[i].0, x) || ContainsSymbol(d.defaults[i].1, x)))
  }

  /** The checker follows every symbol the evaluator reads. (dir_dep is the or of the
      conditions of the symbol's own entries, which its P_SYMBOL properties carry.) */
  ghost predicate Covers(t: Table, defs: Defs) {
    t.defs.Keys <= defs.Keys && forall s, x :: s in t.defs && DefMentions(t.defs[s], x) ==> Edge(defs, s, x)
  }

  /** The properties with a text. */
  predicate IsPrompt(p: CheckProp) { p.kind == PPrompt || p.kind == PMenu || p.kind == PComment }

  /** The definition sym_calc_value finds in the properties the checker walks over: the
      conditions of the prompts, and conditions and values of the defaults, in order. */
  function PromptsOf(ps: seq<CheckProp>): seq<Option<Expr>> {
    if ps == [] then []
    else (if IsPrompt(ps[0]) then [ps[0].visible] else []) + PromptsOf(ps[1..])
  }

  function DefaultsOf(ps: seq<CheckProp>): seq<(Option<Expr>, Expr)> {
    if ps == [] then []
    else (if ps[0].kind == PDefault then [(ps[0].visible, ps[0].value)] else []) + DefaultsOf(ps[1..])
  }

  /** dir_dep has nothing in it that is not in the condition of an entry of the symbol,
      which the P_SYMBOL property of that entry carries. */
  ghost predicate DirOf(d: Option<Expr>, ps: seq<CheckProp>) {
    forall x | MentionsOpt(d, x) :: exists p :: p in ps && p.kind == PSymbol && MentionsOpt(p.visible, x)
  }

  ghost predicate Derived(t: Table, defs: Defs) {
    forall s | s in t.defs ::
      && s in defs && t.defs[s].revDep == defs[s].revDep && DirOf(t.defs[s].dirDep, defs[s].props)
      && t.defs[s].prompts == PromptsOf(defs[s].props) && t.defs[s].defaults == DefaultsOf(defs[s].props)
  }

  lemma {:induction false} PromptFrom(ps: seq<CheckProp>, i: nat) returns (p: CheckProp)
    requires i < |PromptsOf(ps)|
    ensures p in ps && IsPrompt(p) && p.visible == PromptsOf(ps)[i]
  {
    if !IsPrompt(ps[0]) {
      p := PromptFrom(ps[1..], i);
    } else if i == 0 {
      p := ps[0];
    } else {
      p := PromptFrom(ps[1..], i - 1);
    }
  }

  lemma {:induction false} DefaultFrom(ps: seq<CheckProp>, i: nat) returns (p: CheckProp)
    requires i < |DefaultsOf(ps)|
    ensures p in ps && p.kind == PDefault && (p.visible, p.value) == DefaultsOf(ps)[i]
  {
    if ps[0].kind != PDefault {
      p := DefaultFrom(ps[1..], i);
    } else if i == 0 {
      p := ps[0];
    } else {
      p := DefaultFrom(ps[1..], i - 1);
    }
  }

  /** The checker misses nothing that the evaluator reads. */
  lemma DerivedCovers(t: Table, defs: Defs)
    requires Derived(t, defs)
    ensures Covers(t, defs)
  {
    forall s, x | s in t.defs && DefMentions(t.defs[s], x) ensures Edge(defs, s, x) {
      var d, ps := t.defs[s], defs[s].props;
      if i :| 0 <= i < |d.prompts| && MentionsOpt(d.prompts[i], x) {
        var p := PromptFrom(ps, i);
        assert PropMentions(p, x);
      } else if i :| 0 <= i < |d.defaults| && (MentionsOpt(d.defaults[i].0, x) || ContainsSymbol(d.defaults[i].1, x)) {
        var p := DefaultFrom(ps, i);
        assert PropMentions(p, x);
      } else if MentionsOpt(d.dirDep, x) {
        var p :| p in ps && p.kind == PSymbol && MentionsOpt(p.visible, x);
        assert PropMentions(p, x);
      }
    }
  }

  lemma {:induction false} MentionsBelow(keys: set<Symbol>, rank: Symbol -> nat, e: Expr, n: nat)
    requires forall x :: ContainsSymbol(e, x) && x in keys ==> rank(x) < n
    ensures Below(keys, rank, e, n)
  {
    match e
    case Not(a) =>
      assert forall x :: ContainsSymbol(a, x) ==> ContainsSymbol(e, x);
      MentionsBelow(keys, rank, a, n);
    case Bin(_, l, r) =>
      assert forall x :: ContainsSymbol(l, x) || ContainsSymbol(r, x) ==> ContainsSymbol(e, x);
      MentionsBelow(keys, rank, l, n);
      MentionsBelow(keys, rank, r, n);
    case Cmp(_, l, r) => assert ContainsSymbol(e, l) && ContainsSymbol(e, r);
    case Sym(s) => assert ContainsSymbol(e, s);
  }

  lemma MentionsBelowOpt(keys: set<Symbol>, rank: Symbol -> nat, e: Option<Expr>, n: nat)
    requires forall x :: MentionsOpt(e, x) && x in keys ==> rank(x) < n
    ensures BelowOpt(keys, rank, e, n)
  {
    if e.Some? {
      forall x | ContainsSymbol(e.value, x) && x in keys ensures rank(x) < n { assert MentionsOpt(e, x); }
      MentionsBelow(keys, rank, e.value, n);
    }
  }

  lemma DefMentionsBelow(keys: set<Symbol>, rank: Symbol -> nat, d: SymDef, n: nat)
    requires forall x :: DefMentions(d, x) && x in keys ==> rank(x) < n
    ensures DefBelow(keys, rank, d, n)
  {
    forall x | (MentionsOpt(d.dirDep, x) || MentionsOpt(d.revDep, x)) && x in keys ensures rank(x) < n {
      assert DefMentions(d, x);
    }
    MentionsBelowOpt(keys, rank, d.dirDep, n);
    MentionsBelowOpt(keys, rank, d.revDep, n);
    forall i | 0 <= i < |d.prompts| ensures BelowOpt(keys, rank, d.prompts[i], n) {
      forall x | MentionsOpt(d.prompts[i], x) && x in keys ensures rank(x) < n { assert DefMentions(d, x); }
      MentionsBelowOpt(keys, rank, d.prompts[i], n);
    }
    forall i | 0 <= i < |d.defaults|
      ensures BelowOpt(keys, rank, d.defaults[i].0, n) && Below(keys, rank, d.defaults[i].1, n)
    {
      forall x | (MentionsOpt(d.defaults[i].0, x) || ContainsSymbol(d.defaults[i].1, x)) && x in keys
        ensures rank(x) < n
      {
        assert DefMentions(d, x);
      }
      MentionsBelowOpt(keys, rank, d.defaults[i].0, n);
      MentionsBelow(keys, rank, d.defaults[i].1, n);
    }
  }

  /** A dependency order ranks the table. */
  lemma OrderRanks(t: Table, defs: Defs, order: seq<Symbol>)
    requires Covers(t, defs) && DependencyOrder(defs, order) && forall s :: s in defs ==> s in order
    ensures Ranked(t, s => Position(order, s))
  {
    var rank := (s: Symbol) => Position(order, s);
    forall s | s in t.defs ensures DefBelow(t.defs.Keys, rank, t.defs[s], rank(s)) {
      forall x | DefMentions(t.defs[s], x) && x in t.defs.Keys ensures rank(x) < rank(s) {
        EdgeDescends(defs, order, s, x);
      }
      DefMentionsBelow(t.defs.Keys, rank, t.defs[s], rank(s));
    }
  }

  /** An assignment of values to the whole table in which every symbol has the value
      that sym_calc_value computes from the others. */
  ghost predicate Solution(t: Table, w: map<Symbol, Tristate>) {
    w.Keys == t.defs.Keys && forall x :: x in t.defs ==> w[x] == Compute(t, x, Assigned(t, w))
  }

  /** Check the table, then calculate the symbols in queries in that order. The check
      passes exactly when there is no dependency cycle, and then the values are the
      table's only consistent ones. */
  method CheckAndCalc(t: Table, defs: Defs, syms: seq<Symbol>, queries: seq<Symbol>, ghost all: set<Symbol>)
      returns (ok: bool, values: map<Symbol, Tristate>)
    requires Closed(defs, all) && (forall s :: s in syms ==> s in all) && (forall s :: s in defs ==> s in syms)
    requires Covers(t, defs) && forall s :: s in queries ==> s in t.defs
    ensures ok <==> Acyclic(defs)
    ensures ok ==> forall s :: s in queries ==> s in values
    ensures ok ==> exists w :: Solution(t, w)
    ensures ok ==> forall w, s :: Solution(t, w) && s in queries ==> values[s] == w[s]
  {
    ghost var order;
    var reports;
    reports, order := CheckTable(defs, syms, all);
    ok, values := reports == [], map[];
    if !ok {
      return;
    }
    OrderRanks(t, defs, order);
    ghost var rank := (s: Symbol) => Position(order, s);
    var table := new SymbolTable(t, true, rank);
    table.CalcInOrder(queries);
    values := map s | s in table.syms :: table.syms[s].curr;
    SolutionExists(t, rank);
    forall w, s | Solution(t, w) && s in queries ensures values[s] == w[s] {
      ValueUnique(t, rank, w, s);
    }
  }

  /** An acyclic table has a solution. */
  lemma SolutionExists(t: Table, rank: Symbol -> nat)
    requires Ranked(t, rank)
    ensures exists w :: Solution(t, w)
  {
    var w := map s | s in t.defs :: Value(t, rank, s);
    forall x | x in t.defs ensures w[x] == Compute(t, x, Assigned(t, w)) {
      ValueSolves(t, rank, x);
      SameAtAll(t, x, Assigned(t, w), Values(t, rank), rank);
    }
    assert Solution(t, w);
  }

  lemma SameAtAll(t: Table, x: Symbol, v: Valuation, w: Valuation, rank: Symbol -> nat)
    requires Ranked(t, rank) && x in t.defs && forall s: Symbol :: v(s) == w(s)
    ensures Compute(t, x, v) == Compute(t, x, w)
  {
    ComputeBelow(t, rank, x, rank(x), v, w);
  }
}
