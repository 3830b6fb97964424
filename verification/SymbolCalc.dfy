/** Symbol values (scripts/kconfig/symbol.c): what a bool or tristate symbol that
    is neither a choice nor a choice value is worth, as a recursive definition
    without memory, and the facts about it. */
module SymbolValues {
  import opened Exprs
  import opened MenuFinalisation

  /** The properties sym_calc_value looks at: visible.expr of the prompts, the
      default properties (condition and value), dir_dep and rev_dep. */
  datatype SymDef = SymDef(prompts: seq<Option<Expr>>, defaults: seq<(Option<Expr>, Expr)>,
                           dirDep: Option<Expr>, revDep: Option<Expr>)

  /** The symbol table: the bool and tristate symbols with their definitions, the
      values set by the user (def[S_DEF_USER] where SYMBOL_DEF_USER is set),
      modules_val, and the fixed values of all other symbols. */
  datatype Table = Table(defs: map<Symbol, SymDef>, user: map<Symbol, Tristate>, modules: Tristate, outside: Valuation)

  predicate TableOk(t: Table) {
    forall s :: s in t.defs ==> TwoOrThreeValued(s.typ) && !s.isConst
  }

  /** sym_get_string_value of a bool or tristate symbol. */
  function StringValue(a: Tristate, modules: Tristate): string {
    if a == MOD && modules == NO then "n" else TriString(a)
  }

  function TableVal(t: Table, a: Tristate): SymVal { SymVal(a, StringValue(a, t.modules), KString) }

  /** sym_get_type: without modules a tristate symbol is a bool. */
  function EffectiveType(s: Symbol, modules: Tristate): SymbolType {
    if s.typ == TTristate && modules == NO then TBoolean else s.typ
  }

  // ----- sym_calc_visibility and sym_calc_value on known operand values -----

  /** or over all prompts */
  function AnyPrompt(ps: seq<Option<Expr>>, v: Valuation): Tristate {
    if ps == [] then NO else TriOr(AnyPrompt(ps[..|ps| - 1], v), EvalOpt(ps[|ps| - 1], v))
  }

  function Visible(t: Table, s: Symbol, v: Valuation): Tristate
    requires s in t.defs
  {
    var tri := AnyPrompt(t.defs[s].prompts, v);
    if tri == MOD && (s.typ != TTristate || t.modules == NO) then YES else tri
  }

  function DirTri(t: Table, s: Symbol, v: Valuation): Tristate
    requires s in t.defs
  {
    Promote(EvalOpt(t.defs[s].dirDep, v))
  }

  function RevTri(t: Table, s: Symbol, v: Valuation): Tristate
    requires s in t.defs
  {
    var tri := if t.defs[s].revDep.Some? then Eval(t.defs[s].revDep.value, v) else NO;
    if tri == MOD && EffectiveType(s, t.modules) == TBoolean then YES else tri
  }

  /** The first default whose condition is not n, limited by that condition. */
  function DefaultTri(ds: seq<(Option<Expr>, Expr)>, v: Valuation): Tristate {
    if ds == [] then NO
    else if EvalOpt(ds[0].0, v) != NO then TriAnd(Eval(ds[0].1, v), EvalOpt(ds[0].0, v))
    else DefaultTri(ds[1..], v)
  }

  /** The value computed from visibility, rev_dep and what the defaults say. */
  function Combine(t: Table, s: Symbol, visible: Tristate, rev: Tristate, default: Tristate): Tristate {
    var base := if visible != NO && s in t.user then TriAnd(t.user[s], visible) else default;
    var tri := TriOr(base, rev);
    if tri == MOD && EffectiveType(s, t.modules) == TBoolean then YES else tri
  }

  function Compute(t: Table, s: Symbol, v: Valuation): Tristate
    requires s in t.defs
  {
    Combine(t, s, Visible(t, s, v), RevTri(t, s, v), DefaultTri(t.defs[s].defaults, v))
  }

  // ----- acyclic tables -----

  /** Every table symbol in e has a rank below n. */
  predicate Below(defs: set<Symbol>, rank: Symbol -> nat, e: Expr, n: nat) {
    match e
    case Sym(s) => s in defs ==> rank(s) < n
    case Cmp(_, l, r) => (l in defs ==> rank(l) < n) && (r in defs ==> rank(r) < n)
    case Not(a) => Below(defs, rank, a, n)
    case Bin(_, l, r) => Below(defs, rank, l, n) && Below(defs, rank, r, n)
  }

  predicate BelowOpt(defs: set<Symbol>, rank: Symbol -> nat, e: Option<Expr>, n: nat) {
    e.Some? ==> Below(defs, rank, e.value, n)
  }

  predicate DefBelow(defs: set<Symbol>, rank: Symbol -> nat, d: SymDef, n: nat) {
    && (forall i :: 0 <= i < |d.prompts| ==> BelowOpt(defs, rank, d.prompts[i], n))
    && (forall i :: 0 <= i < |d.defaults| ==>
          BelowOpt(defs, rank, d.defaults[i].0, n) && Below(defs, rank, d.defaults[i].1, n))
    && BelowOpt(defs, rank, d.dirDep, n) && BelowOpt(defs, rank, d.revDep, n)
  }

  /** No dependency cycle: every symbol depends on symbols of lower rank only. */
  predicate Ranked(t: Table, rank: Symbol -> nat) {
    forall s :: s in t.defs ==> DefBelow(t.defs.Keys, rank, t.defs[s], rank(s))
  }

  /** The value of a symbol, without memory: computed from the values of the
      symbols it depends on. */
  ghost function Value(t: Table, rank: Symbol -> nat, s: Symbol): Tristate
    requires Ranked(t, rank) && s in t.defs
    decreases rank(s), 1
  {
    Compute(t, s, Lower(t, rank, rank(s)))
  }

  ghost function Lower(t: Table, rank: Symbol -> nat, n: nat): Valuation
    requires Ranked(t, rank)
    decreases n, 0
  {
    (s: Symbol) =>
      if s !in t.defs then t.outside(s)
      else if rank(s) < n then TableVal(t, Value(t, rank, s))
      else TableVal(t, NO)
  }

  /** The valuation the table stands for. */
  ghost function Values(t: Table, rank: Symbol -> nat): Valuation
    requires Ranked(t, rank)
  {
    (s: Symbol) => if s in t.defs then TableVal(t, Value(t, rank, s)) else t.outside(s)
  }

  /** Two valuations that agree on everything outside the table and on the table
      symbols below rank n. */
  ghost predicate Agree(t: Table, rank: Symbol -> nat, n: nat, v: Valuation, w: Valuation) {
    forall s: Symbol :: s !in t.defs || rank(s) < n ==> v(s) == w(s)
  }

  lemma {:induction false} EvalBelow(t: Table, rank: Symbol -> nat, e: Expr, n: nat, v: Valuation, w: Valuation)
    requires Below(t.defs.Keys, rank, e, n) && Agree(t, rank, n, v, w)
    ensures Eval(e, v) == Eval(e, w)
  {
    match e
    case Not(a) => EvalBelow(t, rank, a, n, v, w);
    case Bin(_, l, r) => EvalBelow(t, rank, l, n, v, w); EvalBelow(t, rank, r, n, v, w);
    case Cmp(_, l, r) => assert v(l) == w(l) && v(r) == w(r);
    case Sym(s) => assert v(s) == w(s);
  }

  lemma EvalOptBelow(t: Table, rank: Symbol -> nat, e: Option<Expr>, n: nat, v: Valuation, w: Valuation)
    requires BelowOpt(t.defs.Keys, rank, e, n) && Agree(t, rank, n, v, w)
    ensures EvalOpt(e, v) == EvalOpt(e, w)
  {
    if e.Some? { EvalBelow(t, rank, e.value, n, v, w); }
  }

  lemma {:induction false} PromptsBelow(t: Table, rank: Symbol -> nat, ps: seq<Option<Expr>>, n: nat,
                                        v: Valuation, w: Valuation)
    requires (forall i :: 0 <= i < |ps| ==> BelowOpt(t.defs.Keys, rank, ps[i], n)) && Agree(t, rank, n, v, w)
    ensures AnyPrompt(ps, v) == AnyPrompt(ps, w)
  {
    if ps != [] {
      PromptsBelow(t, rank, ps[..|ps| - 1], n, v, w);
      EvalOptBelow(t, rank, ps[|ps| - 1], n, v, w);
    }
  }

  lemma {:induction false} DefaultsBelow(t: Table, rank: Symbol -> nat, ds: seq<(Option<Expr>, Expr)>, n: nat,
                                         v: Valuation, w: Valuation)
    requires forall i :: 0 <= i < |ds| ==>
               BelowOpt(t.defs.Keys, rank, ds[i].0, n) && Below(t.defs.Keys, rank, ds[i].1, n)
    requires Agree(t, rank, n, v, w)
    ensures DefaultTri(ds, v) == DefaultTri(ds, w)
  {
    if ds != [] {
      EvalOptBelow(t, rank, ds[0].0, n, v, w);
      EvalBelow(t, rank, ds[0].1, n, v, w);
      DefaultsBelow(t, rank, ds[1..], n, v, w);
    }
  }

  lemma ComputeBelow(t: Table, rank: Symbol -> nat, s: Symbol, n: nat, v: Valuation, w: Valuation)
    requires s in t.defs && DefBelow(t.defs.Keys, rank, t.defs[s], n) && Agree(t, rank, n, v, w)
    ensures Visible(t, s, v) == Visible(t, s, w) && RevTri(t, s, v) == RevTri(t, s, w)
    ensures Compute(t, s, v) == Compute(t, s, w)
  {
    PromptsBelow(t, rank, t.defs[s].prompts, n, v, w);
    DefaultsBelow(t, rank, t.defs[s].defaults, n, v, w);
    EvalOptBelow(t, rank, t.defs[s].revDep, n, v, w);
  }

  /** Value is a solution of the equations "each symbol has the value computed from
      the values of all others" ... */
  lemma ValueSolves(t: Table, rank: Symbol -> nat, s: Symbol)
    requires Ranked(t, rank) && s in t.defs
    ensures Value(t, rank, s) == Compute(t, s, Values(t, rank))
  {
    ComputeBelow(t, rank, s, rank(s), Lower(t, rank, rank(s)), Values(t, rank));
  }

  /** ... and the only one. */
  lemma {:induction false} ValueUnique(t: Table, rank: Symbol -> nat, w: map<Symbol, Tristate>, s: Symbol)
    requires Ranked(t, rank) && w.Keys == t.defs.Keys && s in t.defs
    requires forall x :: x in t.defs ==> w[x] == Compute(t, x, Assigned(t, w))
    ensures w[s] == Value(t, rank, s)
    decreases rank(s)
  {
    forall x | x in t.defs && rank(x) < rank(s) ensures w[x] == Value(t, rank, x) {
      ValueUnique(t, rank, w, x);
    }
    ComputeBelow(t, rank, s, rank(s), Assigned(t, w), Lower(t, rank, rank(s)));
  }

  /** The valuation in which table symbols have the values w. */
  function Assigned(t: Table, w: map<Symbol, Tristate>): Valuation {
    (s: Symbol) => if s in t.defs && s in w then TableVal(t, w[s]) else t.outside(s)
  }

  // ----- what the values satisfy -----

  lemma ValueRange(t: Table, rank: Symbol -> nat, s: Symbol)
    requires Ranked(t, rank) && s in t.defs && TableOk(t)
    ensures EffectiveType(s, t.modules) == TBoolean ==> Value(t, rank, s) != MOD
  {
  }

  /** The table produces well-formed valuations, provided the symbols outside it
      have well-formed values: the hypothesis of all expression rewriting. */
  lemma ValuesWellFormed(t: Table, rank: Symbol -> nat)
    requires Ranked(t, rank) && TableOk(t) && WellFormed(t.outside)
    ensures WellFormed(Values(t, rank))
  {
    var v := Values(t, rank);
    forall s: Symbol ensures SymOk(s, v(s)) {
      assert SymOk(s, t.outside(s));
      if s in t.defs { ValueRange(t, rank, s); }
    }
    forall c: Symbol, d: Symbol | c.isConst && d.isConst && c != d ensures v(c).str != v(d).str {
      assert v(c) == t.outside(c) && v(d) == t.outside(d);
    }
  }

  /** rev_dep is a lower bound. */
  lemma RevDepHonoured(t: Table, rank: Symbol -> nat, s: Symbol)
    requires Ranked(t, rank) && s in t.defs && t.defs[s].revDep.Some?
    ensures Eval(t.defs[s].revDep.value, Values(t, rank)) <= Value(t, rank, s)
  {
    ValueSolves(t, rank, s);
  }

  /** Every select is honoured. FinalizeRoot registers all selects of an entry e in the
      reverse dependencies m; in a table that has them the target is at least the
      selecting symbol limited by the select's condition. */
  lemma SelectHonoured(t: Table, rank: Symbol -> nat, m: RevDeps, e: Entry, i: nat)
    requires Ranked(t, rank) && i < |e.props| && e.sym.Some? && e.props[i].kind == PSelect
    requires e.sym.value in t.defs && e.props[i].target in t.defs
    requires Registered(m, e) && t.defs[e.props[i].target].revDep == Lookup(m, e.props[i].target)
    ensures TriAnd(Value(t, rank, e.sym.value), EvalOpt(e.props[i].visible, Values(t, rank)))
            <= Value(t, rank, e.props[i].target)
  {
    var v := Values(t, rank);
    var target := e.props[i].target;
    assert SelectIn(m, e.sym.value, e.props[i]);
    if t.defs[target].revDep.Some? { RevDepHonoured(t, rank, target); }
  }

  // ----- where a value comes from -----

  /** The i-th default is the one that counts: no earlier one has a condition other than n. */
  predicate FirstDefault(ds: seq<(Option<Expr>, Expr)>, i: nat, v: Valuation) {
    i < |ds| && EvalOpt(ds[i].0, v) != NO && forall j :: 0 <= j < i ==> EvalOpt(ds[j].0, v) == NO
  }

  /** It gives its value, limited by its condition; without one the defaults give n. */
  lemma {:induction false} DefaultIs(ds: seq<(Option<Expr>, Expr)>, v: Valuation)
    ensures forall i: nat :: FirstDefault(ds, i, v) ==>
              DefaultTri(ds, v) == TriAnd(Eval(ds[i].1, v), EvalOpt(ds[i].0, v))
    ensures (forall i :: 0 <= i < |ds| ==> EvalOpt(ds[i].0, v) == NO) ==> DefaultTri(ds, v) == NO
  {
    if ds != [] && EvalOpt(ds[0].0, v) == NO {
      DefaultIs(ds[1..], v);
      forall i: nat | FirstDefault(ds, i, v)
        ensures DefaultTri(ds, v) == TriAnd(Eval(ds[i].1, v), EvalOpt(ds[i].0, v))
      {
        assert i > 0 && FirstDefault(ds[1..], i - 1, v);
      }
    }
  }

  lemma {:induction false} AnyPromptIs(ps: seq<Option<Expr>>, v: Valuation)
    ensures forall i :: 0 <= i < |ps| ==> EvalOpt(ps[i], v) <= AnyPrompt(ps, v)
    ensures AnyPrompt(ps, v) != NO ==> exists i :: 0 <= i < |ps| && EvalOpt(ps[i], v) == AnyPrompt(ps, v)
  {
    if ps != [] {
      var n, qs := |ps| - 1, ps[..|ps| - 1];
      AnyPromptIs(qs, v);
      forall i | 0 <= i < |ps| ensures EvalOpt(ps[i], v) <= AnyPrompt(ps, v) {
        if i < n { assert ps[i] == qs[i]; }
      }
      if AnyPrompt(ps, v) != NO && AnyPrompt(ps, v) != EvalOpt(ps[n], v) {
        var i :| 0 <= i < n && EvalOpt(qs[i], v) == AnyPrompt(qs, v);
        assert EvalOpt(ps[i], v) == AnyPrompt(ps, v);
      }
    }
  }

  predicate Accounts(p: Option<Expr>, s: Symbol, modules: Tristate, v: Valuation, shown: Tristate) {
    EvalOpt(p, v) != NO && (EvalOpt(p, v) == shown || s.typ != TTristate || modules == NO)
  }

  /** A symbol is as visible as the most visible of its prompts, but never at m where m is
      not a value of it. */
  lemma VisibleIs(t: Table, s: Symbol, v: Valuation)
    requires s in t.defs
    ensures var ps, shown := t.defs[s].prompts, Visible(t, s, v);
            && (forall i :: 0 <= i < |ps| ==> EvalOpt(ps[i], v) <= shown)
            && (shown != NO ==> exists i :: 0 <= i < |ps| && Accounts(ps[i], s, t.modules, v, shown))
            && (shown == MOD ==> s.typ == TTristate && t.modules != NO)
  {
    AnyPromptIs(t.defs[s].prompts, v);
  }

  /** The value of the reverse dependency, with m made y where m is not a value; and the
      direct dependency, which is met unless there is one that is n. */
  lemma DependenciesAre(t: Table, s: Symbol, v: Valuation)
    requires s in t.defs
    ensures t.defs[s].revDep.None? ==> RevTri(t, s, v) == NO
    ensures t.defs[s].revDep.Some? && (s.typ == TBoolean || (s.typ == TTristate && t.modules == NO)) ==>
              RevTri(t, s, v) == Promote(Eval(t.defs[s].revDep.value, v))
    ensures t.defs[s].revDep.Some? && s.typ == TTristate && t.modules != NO ==>
              RevTri(t, s, v) == Eval(t.defs[s].revDep.value, v)
    ensures DirTri(t, s, v) == if t.defs[s].dirDep.Some? && Eval(t.defs[s].dirDep.value, v) == NO then NO else YES
  {
  }

  /** The user's value does not count. */
  predicate Defaulted(t: Table, s: Symbol, v: Valuation)
    requires s in t.defs
  {
    Visible(t, s, v) == NO || s !in t.user
  }

  /** The greater of the reverse dependency and what the first default that applies gives,
      with m made y where m is not a value. */
  ghost predicate FromDefaults(t: Table, s: Symbol, v: Valuation, tri: Tristate)
    requires s in t.defs
  {
    var ds, m := t.defs[s].defaults, s.typ == TTristate && t.modules != NO;
    && (forall i: nat :: FirstDefault(ds, i, v) ==>
          var want := TriOr(TriAnd(Eval(ds[i].1, v), EvalOpt(ds[i].0, v)), RevTri(t, s, v));
          tri == if m then want else Promote(want))
    && ((forall i :: 0 <= i < |ds| ==> EvalOpt(ds[i].0, v) == NO) ==> tri == RevTri(t, s, v))
  }

  /** A symbol that is invisible or that the user has not set goes by its selects and its
      defaults. */
  lemma DefaultValue(t: Table, rank: Symbol -> nat, s: Symbol)
    requires Ranked(t, rank) && s in t.defs && TwoOrThreeValued(s.typ) && Defaulted(t, s, Values(t, rank))
    ensures FromDefaults(t, s, Values(t, rank), Value(t, rank, s))
  {
    ValueSolves(t, rank, s);
    DefaultIs(t.defs[s].defaults, Values(t, rank));
  }

  /** A symbol that nothing selects and that is not n is so because the user wants it or
      because a default says so. */
  lemma NotForNothing(t: Table, rank: Symbol -> nat, s: Symbol)
    requires Ranked(t, rank) && s in t.defs && TwoOrThreeValued(s.typ) && Value(t, rank, s) != NO
    ensures var v, ds := Values(t, rank), t.defs[s].defaults;
            || RevTri(t, s, v) != NO
            || (Visible(t, s, v) != NO && s in t.user && t.user[s] != NO)
            || (Defaulted(t, s, v) && exists i: nat :: FirstDefault(ds, i, v) && Eval(ds[i].1, v) != NO)
  {
    ValueSolves(t, rank, s);
    var v, ds := Values(t, rank), t.defs[s].defaults;
    if RevTri(t, s, v) == NO && Defaulted(t, s, v) {
      DefaultIs(ds, v);
      var i := FirstOther(ds, v);
      assert FirstDefault(ds, i, v);
    }
  }

  lemma FirstOther(ds: seq<(Option<Expr>, Expr)>, v: Valuation) returns (i: nat)
    requires !forall i :: 0 <= i < |ds| ==> EvalOpt(ds[i].0, v) == NO
    ensures FirstDefault(ds, i, v)
  {
    i := 0;
    while EvalOpt(ds[i].0, v) == NO
      invariant i < |ds| && forall j :: 0 <= j < i ==> EvalOpt(ds[j].0, v) == NO
      decreases |ds| - i
    {
      i := i + 1;
    }
  }

  // ----- sym_tristate_within_range and sym_set_tristate_value -----

  /** sym_tristate_within_range, given the stored visibility and rev_dep value. */
  predicate WithinRange(s: Symbol, modules: Tristate, visible: Tristate, rev: Tristate, val: Tristate) {
    var typ := EffectiveType(s, modules);
    && visible != NO
    && (typ == TBoolean || typ == TTristate)
    && !(typ == TBoolean && val == MOD)
    && visible > rev
    && rev <= val <= visible
  }

  function SetUser(t: Table, s: Symbol, val: Tristate): Table { t.(user := t.user[s := val]) }

  lemma SetUserRanked(t: Table, rank: Symbol -> nat, s: Symbol, val: Tristate)
    requires Ranked(t, rank)
    ensures Ranked(SetUser(t, s, val), rank)
  {
  }

  lemma ComputeOther(t: Table, s: Symbol, val: Tristate, x: Symbol, v: Valuation)
    requires x in t.defs && x != s
    ensures Compute(SetUser(t, s, val), x, v) == Compute(t, x, v)
  {
    assert Visible(SetUser(t, s, val), x, v) == Visible(t, x, v);
    assert RevTri(SetUser(t, s, val), x, v) == RevTri(t, x, v);
  }

  lemma LowerAgree(t: Table, rank: Symbol -> nat, s: Symbol, val: Tristate, n: nat)
    requires Ranked(t, rank) && Ranked(SetUser(t, s, val), rank)
    requires forall y :: y in t.defs && rank(y) < n ==> Value(SetUser(t, s, val), rank, y) == Value(t, rank, y)
    ensures Agree(t, rank, n, Lower(SetUser(t, s, val), rank, n), Lower(t, rank, n))
  {
  }

  /** A symbol keeps its value if another one is set and everything of lower rank keeps its own. */
  lemma SameBelow(t: Table, rank: Symbol -> nat, s: Symbol, val: Tristate, x: Symbol)
    requires Ranked(t, rank) && Ranked(SetUser(t, s, val), rank) && x in t.defs && x != s
    requires forall y :: y in t.defs && rank(y) < rank(x) ==>
               Value(SetUser(t, s, val), rank, y) == Value(t, rank, y)
    ensures Value(SetUser(t, s, val), rank, x) == Value(t, rank, x)
  {
    var lower, lower' := Lower(t, rank, rank(x)), Lower(SetUser(t, s, val), rank, rank(x));
    LowerAgree(t, rank, s, val, rank(x));
    ComputeBelow(t, rank, x, rank(x), lower', lower);
    ComputeOther(t, s, val, x, lower');
  }

  /** A user value has no effect on symbols of lower or equal rank, except its own. */
  lemma {:induction false} SetUserBelow(t: Table, rank: Symbol -> nat, s: Symbol, val: Tristate, x: Symbol)
    requires Ranked(t, rank) && s in t.defs && x in t.defs && rank(x) <= rank(s) && x != s
    ensures Ranked(SetUser(t, s, val), rank) && Value(SetUser(t, s, val), rank, x) == Value(t, rank, x)
    decreases rank(x)
  {
    var t' := SetUser(t, s, val);
    SetUserRanked(t, rank, s, val);
    forall y | y in t.defs && rank(y) < rank(x) ensures Value(t', rank, y) == Value(t, rank, y) {
      SetUserBelow(t, rank, s, val, y);
    }
    SameBelow(t, rank, s, val, x);
  }

  lemma LowerUnset(t: Table, rank: Symbol -> nat, s: Symbol, val: Tristate)
    requires Ranked(t, rank) && Ranked(SetUser(t, s, val), rank) && s in t.defs
    ensures Agree(t, rank, rank(s), Lower(SetUser(t, s, val), rank, rank(s)), Values(t, rank))
  {
    forall y | y in t.defs && rank(y) < rank(s) ensures Value(SetUser(t, s, val), rank, y) == Value(t, rank, y) {
      SetUserBelow(t, rank, s, val, y);
    }
  }

  /** What a symbol is once a user value has been set, from what its definition gave before. */
  lemma SetValue(t: Table, rank: Symbol -> nat, s: Symbol, val: Tristate)
    requires Ranked(t, rank) && s in t.defs
    ensures var v := Values(t, rank);
            && Ranked(SetUser(t, s, val), rank)
            && Value(SetUser(t, s, val), rank, s) ==
                 Combine(SetUser(t, s, val), s, Visible(t, s, v), RevTri(t, s, v), DefaultTri(t.defs[s].defaults, v))
  {
    SetUserRanked(t, rank, s, val);
    LowerUnset(t, rank, s, val);
    var lower, v := Lower(SetUser(t, s, val), rank, rank(s)), Values(t, rank);
    ComputeBelow(t, rank, s, rank(s), lower, v);
    DefaultsBelow(t, rank, t.defs[s].defaults, rank(s), lower, v);
    assert Visible(SetUser(t, s, val), s, lower) == Visible(t, s, lower);
    assert RevTri(SetUser(t, s, val), s, lower) == RevTri(t, s, lower);
  }

  /** The table with no user value for s. */
  function Unset(t: Table, s: Symbol): Table { t.(user := t.user - {s}) }

  lemma UnsetOther(t: Table, s: Symbol, x: Symbol, v: Valuation)
    requires x in t.defs && x != s
    ensures Compute(Unset(t, s), x, v) == Compute(t, x, v)
  {
    assert Visible(Unset(t, s), x, v) == Visible(t, x, v);
    assert RevTri(Unset(t, s), x, v) == RevTri(t, x, v);
  }

  lemma {:induction false} UnsetBelow(t: Table, rank: Symbol -> nat, s: Symbol, x: Symbol)
    requires Ranked(t, rank) && s in t.defs && x in t.defs && rank(x) <= rank(s) && x != s
    ensures Ranked(Unset(t, s), rank) && Value(Unset(t, s), rank, x) == Value(t, rank, x)
    decreases rank(x)
  {
    var t' := Unset(t, s);
    forall y | y in t.defs && rank(y) < rank(x) ensures Value(t', rank, y) == Value(t, rank, y) {
      UnsetBelow(t, rank, s, y);
    }
    var lower, lower' := Lower(t, rank, rank(x)), Lower(t', rank, rank(x));
    assert Agree(t, rank, rank(x), lower', lower);
    ComputeBelow(t, rank, x, rank(x), lower', lower);
    UnsetOther(t, s, x, lower');
  }

  lemma UnsetAgree(t: Table, rank: Symbol -> nat, s: Symbol)
    requires Ranked(t, rank) && Ranked(Unset(t, s), rank) && s in t.defs
    ensures Agree(t, rank, rank(s), Lower(Unset(t, s), rank, rank(s)), Values(t, rank))
  {
    forall y | y in t.defs && rank(y) < rank(s) ensures Value(Unset(t, s), rank, y) == Value(t, rank, y) {
      UnsetBelow(t, rank, s, y);
    }
  }

  /** What a symbol is once its user value has been dropped. */
  lemma UnsetValue(t: Table, rank: Symbol -> nat, s: Symbol)
    requires Ranked(t, rank) && s in t.defs
    ensures var v := Values(t, rank);
            && Ranked(Unset(t, s), rank)
            && Value(Unset(t, s), rank, s) ==
                 Combine(Unset(t, s), s, Visible(t, s, v), RevTri(t, s, v), DefaultTri(t.defs[s].defaults, v))
  {
    UnsetAgree(t, rank, s);
    var t', lower, v := Unset(t, s), Lower(Unset(t, s), rank, rank(s)), Values(t, rank);
    ComputeBelow(t, rank, s, rank(s), lower, v);
    DefaultsBelow(t, rank, t.defs[s].defaults, rank(s), lower, v);
    assert Visible(t', s, lower) == Visible(t, s, lower) && RevTri(t', s, lower) == RevTri(t, s, lower);
  }

  /** What an invisible symbol is: no user value makes a difference, not even its absence. */
  lemma InvisibleValue(t: Table, rank: Symbol -> nat, s: Symbol, val: Tristate)
    requires Ranked(t, rank) && s in t.defs && Visible(t, s, Values(t, rank)) == NO
    ensures Ranked(SetUser(t, s, val), rank) && Ranked(Unset(t, s), rank)
    ensures Value(SetUser(t, s, val), rank, s) == Value(Unset(t, s), rank, s) == Value(t, rank, s)
  {
    SetValue(t, rank, s, val);
    UnsetValue(t, rank, s);
    ValueSolves(t, rank, s);
  }

  /** The value after the user has set it to val. */
  function AfterSet(t: Table, s: Symbol, visible: Tristate, rev: Tristate, default: Tristate, val: Tristate): Tristate {
    Combine(SetUser(t, s, val), s, visible, rev, default)
  }

  lemma RangeCombine(t: Table, s: Symbol, visible: Tristate, rev: Tristate, default: Tristate, val: Tristate)
    requires TwoOrThreeValued(s.typ) && (EffectiveType(s, t.modules) == TBoolean ==> visible != MOD && rev != MOD)
    ensures WithinRange(s, t.modules, visible, rev, val) <==>
              && AfterSet(t, s, visible, rev, default, val) == val
              && exists w :: AfterSet(t, s, visible, rev, default, w) != val
  {
    assert AfterSet(t, s, visible, rev, default, NO) != AfterSet(t, s, visible, rev, default, YES)
           <==> visible != NO && visible > rev;
  }

  /** Exactly the values are in range that the symbol takes on when set to them, provided
      that it does not take them on whatever it is set to. */
  lemma RangeExact(t: Table, rank: Symbol -> nat, s: Symbol, val: Tristate)
    requires Ranked(t, rank) && s in t.defs && TwoOrThreeValued(s.typ)
    ensures forall w :: Ranked(SetUser(t, s, w), rank)
    ensures WithinRange(s, t.modules, Visible(t, s, Values(t, rank)), RevTri(t, s, Values(t, rank)), val) <==>
              && Value(SetUser(t, s, val), rank, s) == val
              && exists w :: Value(SetUser(t, s, w), rank, s) != val
  {
    var v := Values(t, rank);
    var visible, rev, d := Visible(t, s, v), RevTri(t, s, v), DefaultTri(t.defs[s].defaults, v);
    forall w
      ensures Ranked(SetUser(t, s, w), rank)
      ensures Value(SetUser(t, s, w), rank, s) == AfterSet(t, s, visible, rev, d, w)
    {
      SetValue(t, rank, s, w);
    }
    RangeCombine(t, s, visible, rev, d, val);
  }

  /** A value accepted by the range check, once set, is the value read back. */
  lemma SetThenRead(t: Table, rank: Symbol -> nat, s: Symbol, val: Tristate)
    requires Ranked(t, rank) && s in t.defs
    requires WithinRange(s, t.modules, Visible(t, s, Values(t, rank)), RevTri(t, s, Values(t, rank)), val)
    ensures Ranked(SetUser(t, s, val), rank) && Value(SetUser(t, s, val), rank, s) == val
  {
    SetValue(t, rank, s, val);
  }

  /** A visible symbol with a user value: limited by its visibility, raised by its
      selects, and never m where m is not a value. */
  lemma UserValue(t: Table, rank: Symbol -> nat, s: Symbol)
    requires Ranked(t, rank) && s in t.defs && s in t.user
    requires Visible(t, s, Values(t, rank)) != NO
    ensures var v := Values(t, rank);
            var want := TriOr(TriAnd(t.user[s], Visible(t, s, v)), RevTri(t, s, v));
            Value(t, rank, s) == if EffectiveType(s, t.modules) == TBoolean then Promote(want) else want
  {
    ValueSolves(t, rank, s);
  }

  /** A user value that the symbol gets back from a new calculation if it is its value:
      none counts while the symbol is invisible, and no value is limited to less than
      the visibility and the selects allow. */
  predicate Lasting(visible: Tristate, rev: Tristate, val: Tristate) { visible == NO || val <= TriOr(visible, rev) }

  /** Setting a symbol to the value it has anyway leaves a lasting value alone; one that
      is not is cut down to what visibility and selects allow. */
  lemma SetSameSelf(t: Table, rank: Symbol -> nat, s: Symbol)
    requires Ranked(t, rank) && s in t.defs
    ensures var v, val := Values(t, rank), Value(t, rank, s);
            && Ranked(SetUser(t, s, val), rank)
            && Value(SetUser(t, s, val), rank, s) ==
                 if Lasting(Visible(t, s, v), RevTri(t, s, v), val) then val
                 else TriOr(Visible(t, s, v), RevTri(t, s, v))
  {
    SetValue(t, rank, s, Value(t, rank, s));
    ValueSolves(t, rank, s);
  }

  /** Setting a symbol to the value it has anyway changes no value, if that is lasting. */
  lemma {:induction false} SetSameValue(t: Table, rank: Symbol -> nat, s: Symbol, x: Symbol)
    requires Ranked(t, rank) && s in t.defs && x in t.defs
    requires Lasting(Visible(t, s, Values(t, rank)), RevTri(t, s, Values(t, rank)), Value(t, rank, s))
    ensures Ranked(SetUser(t, s, Value(t, rank, s)), rank)
    ensures Value(SetUser(t, s, Value(t, rank, s)), rank, x) == Value(t, rank, x)
    decreases rank(x)
  {
    var t' := SetUser(t, s, Value(t, rank, s));
    SetSameSelf(t, rank, s);
    if x != s {
      forall y | y in t.defs && rank(y) < rank(x) ensures Value(t', rank, y) == Value(t, rank, y) {
        SetSameValue(t, rank, s, y);
      }
      SameBelow(t, rank, s, Value(t, rank, s), x);
    }
  }

  /** And only then: a symbol can be set to the value it has, whether or not that is in
      range, without a change of any value, if and only if the value is lasting. */
  lemma SetSameExact(t: Table, rank: Symbol -> nat, s: Symbol)
    requires Ranked(t, rank) && s in t.defs
    ensures Ranked(SetUser(t, s, Value(t, rank, s)), rank)
    ensures (forall x :: x in t.defs ==> Value(SetUser(t, s, Value(t, rank, s)), rank, x) == Value(t, rank, x))
            <==> Lasting(Visible(t, s, Values(t, rank)), RevTri(t, s, Values(t, rank)), Value(t, rank, s))
  {
    SetSameSelf(t, rank, s);
    if Lasting(Visible(t, s, Values(t, rank)), RevTri(t, s, Values(t, rank)), Value(t, rank, s)) {
      forall x | x in t.defs ensures Value(SetUser(t, s, Value(t, rank, s)), rank, x) == Value(t, rank, x) {
        SetSameValue(t, rank, s, x);
      }
    }
  }

  /** A tristate symbol whose prompt is m and whose default is y, modules being on. */
  function ModPrompt(s: Symbol, outside: Valuation): Table {
    Table(map[s := SymDef([Some(Sym(SYM_MOD))], [(None, Sym(SYM_YES))], None, None)], map[], YES, outside)
  }

  lemma ModPromptValue(s: Symbol, outside: Valuation, rank: Symbol -> nat)
    requires WellFormed(outside) && s.typ == TTristate
    ensures var t := ModPrompt(s, outside);
            && Ranked(t, rank) && Value(t, rank, s) == YES
            && Visible(t, s, Values(t, rank)) == MOD && RevTri(t, s, Values(t, rank)) == NO
  {
    var t := ModPrompt(s, outside);
    var v, ps := Values(t, rank), [Some(Sym(SYM_MOD))];
    assert SymOk(SYM_MOD, outside(SYM_MOD)) && SymOk(SYM_YES, outside(SYM_YES));
    assert ps[..0] == [] && AnyPrompt(ps, v) == MOD by { assert v(SYM_MOD) == outside(SYM_MOD); }
    assert DefaultTri(t.defs[s].defaults, v) == YES by { assert v(SYM_YES) == outside(SYM_YES); }
    ValueSolves(t, rank, s);
  }

  /** It is y, y is out of range, and setting it to y makes it m. */
  lemma SetSameFails(s: Symbol, outside: Valuation, rank: Symbol -> nat)
    requires WellFormed(outside) && s.typ == TTristate
    ensures var t := ModPrompt(s, outside);
            && Ranked(t, rank) && Ranked(SetUser(t, s, YES), rank) && Value(t, rank, s) == YES
            && !WithinRange(s, YES, Visible(t, s, Values(t, rank)), RevTri(t, s, Values(t, rank)), YES)
            && Value(SetUser(t, s, YES), rank, s) == MOD
  {
    ModPromptValue(s, outside, rank);
    SetSameSelf(ModPrompt(s, outside), rank, s);
  }
}
