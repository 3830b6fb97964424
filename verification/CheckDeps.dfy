/** The recursive-dependency checker of scripts/kconfig/symbol.c for symbols that
    are neither choices nor choice values: sym_check_deps, sym_check_sym_deps,
    sym_check_expr_deps and the dep_stack they report from. */
module DependencyCheck {
  import opened Exprs
  import opened ExprNormalisation
  import opened MenuFinalisation

  /** A property as the checker sees it; value is used for defaults only. */
  datatype CheckProp = CheckProp(kind: PropKind, visible: Option<Expr>, value: Expr)

  datatype CheckDef = CheckDef(revDep: Option<Expr>, props: seq<CheckProp>)

  type Defs = map<Symbol, CheckDef>

  /** P_CHOICE and P_SELECT properties are skipped. */
  predicate Skipped(p: CheckProp) { p.kind == PChoice || p.kind == PSelect }

  predicate MentionsOpt(e: Option<Expr>, x: Symbol) { e.Some? && ContainsSymbol(e.value, x) }

  predicate PropMentions(p: CheckProp, x: Symbol) {
    !Skipped(p) && (MentionsOpt(p.visible, x) || (p.kind == PDefault && ContainsSymbol(p.value, x)))
  }

  /** s depends on x. Constants and undefined symbols depend on nothing. */
  predicate Edge(defs: Defs, s: Symbol, x: Symbol) {
    s in defs && (MentionsOpt(defs[s].revDep, x) || exists p :: p in defs[s].props && PropMentions(p, x))
  }

  predicate IsPath(defs: Defs, p: seq<Symbol>) { forall i :: 0 <= i < |p| - 1 ==> Edge(defs, p[i], p[i + 1]) }

  /** A dependency cycle: each symbol depends on the next, the last on the first. */
  predicate IsCycle(defs: Defs, c: seq<Symbol>) {
    c != [] && IsPath(defs, c) && Edge(defs, c[|c| - 1], c[0])
  }

  ghost predicate Acyclic(defs: Defs) { forall c: seq<Symbol> :: !IsCycle(defs, c) }

  /** Each symbol of order depends only on symbols before it. */
  ghost predicate DependencyOrder(defs: Defs, order: seq<Symbol>) {
    forall i, x :: 0 <= i < |order| && Edge(defs, order[i], x) ==> x in order[..i]
  }

  /** Position of the first occurrence. */
  function Position(order: seq<Symbol>, s: Symbol): (i: nat)
    ensures s in order ==> i < |order| && order[i] == s
    ensures forall j :: 0 <= j < i && j < |order| ==> order[j] != s
  {
    if order == [] || order[0] == s then 0 else 1 + Position(order[1..], s)
  }

  lemma EdgeDescends(defs: Defs, order: seq<Symbol>, s: Symbol, x: Symbol)
    requires DependencyOrder(defs, order) && s in order && Edge(defs, s, x)
    ensures x in order && Position(order, x) < Position(order, s)
  {
    var i := Position(order, s);
    assert Edge(defs, order[i], x);
    var j :| 0 <= j < i && order[j] == x;
  }

  lemma {:induction false} PathDescends(defs: Defs, order: seq<Symbol>, c: seq<Symbol>, k: nat)
    requires DependencyOrder(defs, order) && c != [] && IsPath(defs, c) && c[0] in order && k < |c|
    ensures c[k] in order && Position(order, c[k]) + k <= Position(order, c[0])
  {
    if k > 0 {
      PathDescends(defs, order, c, k - 1);
      assert Edge(defs, c[k - 1], c[k - 1 + 1]);
      EdgeDescends(defs, order, c[k - 1], c[k]);
    }
  }

  /** If all symbols that depend on anything can be put in dependency order, there is no cycle. */
  lemma OrderedAcyclic(defs: Defs, order: seq<Symbol>)
    requires DependencyOrder(defs, order) && forall s :: s in defs ==> s in order
    ensures Acyclic(defs)
  {
    forall c: seq<Symbol> ensures !IsCycle(defs, c) {
      if IsCycle(defs, c) {
        assert Edge(defs, c[|c| - 1], c[0]);
        assert c[0] in defs by {
          if |c| > 1 { assert Edge(defs, c[0], c[0 + 1]); }
        }
        PathDescends(defs, order, c, |c| - 1);
        EdgeDescends(defs, order, c[|c| - 1], c[0]);
      }
    }
  }

  /** The dependency checker between two calls: the stack is a dependency path of
      exactly the symbols under check, every report is a cycle, and without a report
      everything that has been checked is in dependency order. */
  ghost predicate Consistent(defs: Defs, all: set<Symbol>, check: set<Symbol>, checked: set<Symbol>, stack: seq<Symbol>,
                             reports: seq<seq<Symbol>>, order: seq<Symbol>) {
    && check <= checked <= all && (forall x :: x in check <==> x in stack) && IsPath(defs, stack)
    && (forall c :: c in reports ==> IsCycle(defs, c))
    && DependencyOrder(defs, order) && (forall x :: x in order ==> x in checked && x !in check)
    && (reports == [] ==> forall x :: x in checked ==> x in check || x in order)
  }

  /** All symbols the checker can reach from all are in all. */
  ghost predicate Closed(defs: Defs, all: set<Symbol>) {
    defs.Keys <= all && forall s, x :: s in defs && Edge(defs, s, x) ==> x in all
  }

  lemma PathSnoc(defs: Defs, stack: seq<Symbol>, s: Symbol)
    requires IsPath(defs, stack) && (stack == [] || Edge(defs, stack[|stack| - 1], s))
    ensures IsPath(defs, stack + [s])
  {
  }

  lemma PathSuffix(defs: Defs, stack: seq<Symbol>, i: nat)
    requires IsPath(defs, stack) && i < |stack|
    ensures IsPath(defs, stack[i..])
  {
    var c := stack[i..];
    forall k | 0 <= k < |c| - 1 ensures Edge(defs, c[k], c[k + 1]) {
      assert Edge(defs, stack[i + k], stack[i + k + 1]);
    }
  }

  /** SYMBOL_CHECK and SYMBOL_CHECKED have just been set for s. */
  lemma Started(defs: Defs, all: set<Symbol>, check: set<Symbol>, checked: set<Symbol>, stack: seq<Symbol>,
                reports: seq<seq<Symbol>>, order: seq<Symbol>, s: Symbol)
    requires Consistent(defs, all, check, checked, stack, reports, order) && s in all && s !in checked
    requires stack == [] || Edge(defs, stack[|stack| - 1], s)
    ensures Consistent(defs, all, check + {s}, checked + {s}, stack + [s], reports, order)
  {
    PathSnoc(defs, stack, s);
  }

  /** All dependencies of s have been checked; s comes off the stack. */
  lemma Completed(defs: Defs, all: set<Symbol>, check: set<Symbol>, checked: set<Symbol>, stack: seq<Symbol>,
                  reports: seq<seq<Symbol>>, order: seq<Symbol>, s: Symbol)
    requires Consistent(defs, all, check, checked, stack + [s], reports, order) && s !in stack
    requires reports == [] ==> forall x :: Edge(defs, s, x) ==> x in order
    ensures Consistent(defs, all, check - {s}, checked, stack, reports, if reports == [] then order + [s] else order)
  {
    var t := stack + [s];
    forall i | 0 <= i < |stack| - 1 ensures Edge(defs, stack[i], stack[i + 1]) { assert Edge(defs, t[i], t[i + 1]); }
    assert forall x :: x in t <==> x in stack || x == s;
    if reports == [] {
      var o := order + [s];
      forall i, x | 0 <= i < |o| && Edge(defs, o[i], x) ensures x in o[..i] {
        if i < |order| {
          assert Edge(defs, order[i], x) && o[..i] == order[..i];
        } else {
          assert o[..i] == order;
        }
      }
    }
  }

  class Checker {
    const defs: Defs
    ghost const all: set<Symbol>
    /** symbols with SYMBOL_CHECK */
    var check: set<Symbol>
    /** symbols with SYMBOL_CHECKED */
    var checked: set<Symbol>
    /** dep_stack, top last */
    var stack: seq<Symbol>
    /** for each "recursive dependency detected!", the stack segment it prints */
    var reports: seq<seq<Symbol>>
    ghost var order: seq<Symbol>

    constructor (defs: Defs, ghost all: set<Symbol>)
      requires Closed(defs, all)
      ensures Inv() && stack == [] && reports == [] && checked == {} && this.defs == defs && this.all == all
    {
      this.defs, this.all := defs, all;
      check, checked, stack, reports := {}, {}, [], [];
      order := [];
    }

    ghost predicate Inv()
      reads this
    {
      Closed(defs, all) && Consistent(defs, all, check, checked, stack, reports, order)
    }

    /** sym_check_print_recursive: the report is the part of the stack from the
        closest occurrence of s to the top. The source's branch for a symbol that is
        not on the stack is never taken. */
    method PrintRecursive(s: Symbol)
      requires Inv() && s in check && stack != [] && Edge(defs, stack[|stack| - 1], s)
      modifies this`reports
      ensures Inv() && |reports| == |old(reports)| + 1 && old(reports) <= reports
      ensures var seg := reports[|reports| - 1];
              0 < |seg| <= |stack| && seg == stack[|stack| - |seg|..] && seg[0] == s && s !in seg[1..]
    {
      var i := FindOnStack(s);
      assert stack[i..][1..] == stack[i + 1..];
      ReportCycle(i);
    }

    /** The loop down the stack. */
    method FindOnStack(s: Symbol) returns (n: nat)
      requires s in stack
      ensures n < |stack| && stack[n] == s && s !in stack[n + 1..]
    {
      var i := |stack|;
      assert stack[..i] == stack;
      while stack[i - 1] != s
        invariant 0 < i <= |stack| && s in stack[..i] && s !in stack[i..]
        decreases i
      {
        assert stack[..i] == stack[..i - 1] + [stack[i - 1]];
        assert stack[i - 1..] == [stack[i - 1]] + stack[i..];
        i := i - 1;
      }
      n := i - 1;
    }

    method ReportCycle(i: nat)
      requires Inv() && i < |stack| && Edge(defs, stack[|stack| - 1], stack[i])
      modifies this`reports
      ensures Inv() && reports == old(reports) + [stack[i..]]
    {
      PathSuffix(defs, stack, i);
      reports := reports + [stack[i..]];
    }

    /** sym_check_expr_deps */
    method CheckExprDeps(e: Expr) returns (r: Option<Symbol>)
      requires Inv() && stack != [] && forall x :: ContainsSymbol(e, x) ==> Edge(defs, stack[|stack| - 1], x)
      modifies this
      ensures Unwound(old(check), old(checked), old(stack), old(reports), old(order), r)
      ensures reports == [] ==> forall x :: ContainsSymbol(e, x) ==> x in order
      decreases all - checked, 1, Size(e)
    {
      match e
      case Bin(_, a, b) =>
        assert forall x :: ContainsSymbol(a, x) || ContainsSymbol(b, x) ==> ContainsSymbol(e, x);
        r := CheckExprDeps(a);
        if r.Some? { return; }
        r := CheckExprDeps(b);
      case Not(a) =>
        assert forall x :: ContainsSymbol(a, x) ==> ContainsSymbol(e, x);
        r := CheckExprDeps(a);
      case Cmp(_, a, b) =>
        assert ContainsSymbol(e, a) && ContainsSymbol(e, b);
        r := CheckDeps(a);
        if r.Some? { return; }
        r := CheckDeps(b);
      case Sym(a) =>
        assert ContainsSymbol(e, a);
        r := CheckDeps(a);
    }

    method CheckOptDeps(e: Option<Expr>) returns (r: Option<Symbol>)
      requires Inv() && stack != [] && forall x :: MentionsOpt(e, x) ==> Edge(defs, stack[|stack| - 1], x)
      modifies this
      ensures Unwound(old(check), old(checked), old(stack), old(reports), old(order), r)
      ensures reports == [] ==> forall x :: MentionsOpt(e, x) ==> x in order
      decreases all - checked, 2
    {
      if e.None? { return None; }
      assert forall x :: ContainsSymbol(e.value, x) ==> MentionsOpt(e, x);
      r := CheckExprDeps(e.value);
    }

    /** What a nested check leaves behind; the symbol it returns is one that is still being
        checked. */
    ghost predicate Unwound(check0: set<Symbol>, checked0: set<Symbol>, stack0: seq<Symbol>,
                            reports0: seq<seq<Symbol>>, order0: seq<Symbol>, r: Option<Symbol>)
      reads this
    {
      && Inv() && check == check0 && stack == stack0 && checked0 <= checked
      && reports0 <= reports && order0 <= order && (r.Some? ==> reports0 < reports && r.value in check0)
    }

    /** The properties loop of sym_check_sym_deps. */
    method CheckProps(s: Symbol) returns (r: Option<Symbol>)
      requires Inv() && stack != [] && stack[|stack| - 1] == s && s in defs
      modifies this
      ensures Unwound(old(check), old(checked), old(stack), old(reports), old(order), r)
      ensures reports == [] ==> forall p, x :: p in defs[s].props && PropMentions(p, x) ==> x in order
      decreases all - checked, 4
    {
      var i, props := 0, defs[s].props;
      r := None;
      while i < |props|
        invariant 0 <= i <= |props| && r == None
        invariant Unwound(old(check), old(checked), old(stack), old(reports), old(order), r)
        invariant reports == [] ==> forall k, x :: 0 <= k < i && PropMentions(props[k], x) ==> x in order
      {
        r := CheckProp1(s, i);
        if r.Some? { return; }
        i := i + 1;
      }
    }

    method CheckProp1(s: Symbol, i: nat) returns (r: Option<Symbol>)
      requires Inv() && stack != [] && stack[|stack| - 1] == s && s in defs && i < |defs[s].props|
      modifies this
      ensures Unwound(old(check), old(checked), old(stack), old(reports), old(order), r)
      ensures reports == [] ==> forall x :: PropMentions(defs[s].props[i], x) ==> x in order
      decreases all - checked, 3
    {
      var p := defs[s].props[i];
      assert p in defs[s].props;
      if Skipped(p) {
        return None;
      }
      r := CheckOptDeps(p.visible);
      if r.Some? || p.kind != PDefault {
        return;
      }
      r := CheckExprDeps(p.value);
    }

    /** sym_check_sym_deps */
    method CheckSymDeps(s: Symbol) returns (r: Option<Symbol>)
      requires Closed(defs, all) && s !in stack && s in all
      requires Consistent(defs, all, check, checked, stack + [s], reports, order)
      modifies this
      ensures Closed(defs, all) && stack == old(stack) && check == old(check) && old(checked) <= checked
      ensures Consistent(defs, all, check, checked, stack + [s], reports, order)
      ensures old(reports) <= reports && old(order) <= order
      ensures r.Some? ==> old(reports) < reports && r.value in check
      ensures reports == [] ==> forall x :: Edge(defs, s, x) ==> x in order
      decreases all - checked, 5
    {
      stack := stack + [s];
      r := None;
      if s in defs {
        r := CheckOptDeps(defs[s].revDep);
        if r.None? {
          r := CheckProps(s);
        }
      }
      stack := stack[..|stack| - 1];
    }

    /** sym_check_deps. The result alone is no verdict: at the symbol where the cycle
        closes it is reset to NULL, so that the outermost call returns NULL whatever has
        been reported. */
    method CheckDeps(s: Symbol) returns (r: Option<Symbol>)
      requires Inv() && (stack == [] || Edge(defs, stack[|stack| - 1], s)) && s in all
      modifies this
      ensures Unwound(old(check), old(checked), old(stack), old(reports), old(order), r)
      ensures reports == [] ==> s in order && r == None
      ensures old(stack) == [] ==> r == None
      decreases all - checked, 0
    {
      if s in check {
        PrintRecursive(s);
        return Some(s);
      }
      if s in checked {
        return None;
      }
      Started(defs, all, check, checked, stack, reports, order, s);
      check, checked := check + {s}, checked + {s};
      r := CheckSymDeps(s);
      Completed(defs, all, check, checked, stack, reports, order, s);
      check := check - {s};
      if reports == [] {
        order := order + [s];
      }
      if r == Some(s) {
        r := None;
      }
    }

    /** The check of a whole table: sym_check_deps on every symbol. */
    method CheckAll(syms: seq<Symbol>)
      requires Inv() && stack == [] && reports == [] && forall s :: s in syms ==> s in all
      modifies this
      ensures Inv() && stack == []
      ensures reports == [] ==> forall s :: s in syms ==> s in order
    {
      var i := 0;
      while i < |syms|
        invariant 0 <= i <= |syms| && Inv() && stack == []
        invariant reports == [] ==> forall k :: 0 <= k < i ==> syms[k] in order
      {
        var r := CheckDeps(syms[i]);
        i := i + 1;
      }
    }
  }

  /** Run over all symbols of a table the checker is exact: it reports nothing if and
      only if there is no dependency cycle, and everything it reports is one. Without
      a report the symbols come out in an order that respects all dependencies. */
  method CheckTable(defs: Defs, syms: seq<Symbol>, ghost all: set<Symbol>)
      returns (reports: seq<seq<Symbol>>, ghost order: seq<Symbol>)
    requires Closed(defs, all) && (forall s :: s in syms ==> s in all) && forall s :: s in defs ==> s in syms
    ensures reports == [] <==> Acyclic(defs)
    ensures forall c :: c in reports ==> IsCycle(defs, c)
    ensures reports == [] ==> DependencyOrder(defs, order) && forall s :: s in defs ==> s in order
  {
    var checker := new Checker(defs, all);
    checker.CheckAll(syms);
    reports, order := checker.reports, checker.order;
    if reports == [] {
      OrderedAcyclic(defs, order);
    } else {
      assert IsCycle(defs, reports[0]);
    }
  }
}
