/** menu_finalize of scripts/kconfig/menu.c: dependency propagation, nesting of
    following siblings and flattening of promptless blocks, on linked entries. */
module MenuFinalisation {
  import opened Exprs
  import opened ExprEquality
  import opened ExprDuplicates
  import opened ExprNormalisation
  import opened MenuDependencies
  import opened MenuForest

  datatype PropKind = PPrompt | PComment | PMenu | PDefault | PChoice | PSelect | PRange | PEnv | PSymbol

  /** struct property, for the properties whose menu field is the entry at hand. */
  datatype Property = Property(kind: PropKind, hasText: bool, visible: Option<Expr>, target: Symbol)

  /** struct menu without its links; prompt is an index into props. */
  datatype EntryFields = Entry(sym: Option<Symbol>, prompt: Option<nat>, dep: Option<Expr>, props: seq<Property>)

  type Entry = e: EntryFields | e.prompt.Some? ==> e.prompt.value < |e.props|
    witness EntryFields.Entry(None, None, None, [])

  /** The condition of the entry's prompt; without a prompt, NULL. */
  function PromptCond(e: Entry): Option<Expr>
  {
    if e.prompt.Some? then e.props[e.prompt.value].visible else None
  }

  /** menu->prompt ? menu->prompt->visible.expr : menu->dep */
  function Cond(e: Entry): Option<Expr>
  {
    if e.prompt.Some? then PromptCond(e) else e.dep
  }

  /** menu->prompt && menu->prompt->text */
  predicate HasPromptText(e: Entry) {
    e.prompt.Some? && e.props[e.prompt.value].hasText
  }

  /** expr_trans_bool is applied for every symbol that is not tristate. */
  predicate Promotes(e: Entry) { e.sym.Some? && e.sym.value.typ != TTristate }

  predicate NormalEntry(e: Entry) {
    NormalOpt(e.dep) && forall p :: p in e.props ==> NormalOpt(p.visible)
  }

  predicate OrderableEntry(e: Entry, v: Valuation) {
    OrderableOpt(e.dep, v) && forall p :: p in e.props ==> OrderableOpt(p.visible, v)
  }

  /** Same symbol, prompt and property kinds; only conditions differ. */
  predicate SameShape(e: Entry, e': Entry) {
    && e'.sym == e.sym && e'.prompt == e.prompt && |e.props| <= |e'.props|
    && forall i :: 0 <= i < |e.props| ==> e'.props[i] == e.props[i].(visible := e'.props[i].visible)
  }

  /** The entry's condition after propagation from an enclosing condition pd: its
      dep is pd && dep, and each property's condition is that && its own, up to
      promotion of m where no tristate symbol reads it. */
  ghost predicate Propagated(pd: Option<Expr>, e: Entry, e': Entry) {
    && SameShape(e, e') && |e'.props| == |e.props|
    && (NormalOpt(pd) ==> NormalEntry(e'))
    && forall v: Valuation | WellFormed(v) && OrderableEntry(e, v) ::
         && EvalOpt(e'.dep, v) == TriAnd(EvalOpt(pd, v), EvalOpt(e.dep, v))
         && forall i :: 0 <= i < |e.props| ==> PropagatedProp(pd, e, e', i, v)
  }

  ghost predicate PropagatedProp(pd: Option<Expr>, e: Entry, e': Entry, i: nat, v: Valuation)
    requires i < |e.props| == |e'.props|
  {
    var want := TriAnd(EvalOpt(e'.dep, v), EvalOpt(e.props[i].visible, v));
    if Promotes(e) then NormalOpt(pd) ==> Promote(EvalOpt(e'.props[i].visible, v)) == Promote(want)
    else EvalOpt(e'.props[i].visible, v) == want
  }

  /** A condition that the rewriting has nothing left to do on. */
  ghost predicate Reduced(c: Option<Expr>, promoted: bool) {
    c.Some? ==> if promoted then Testless(c.value) else NoTwins(c.value)
  }

  /** The propagation step of menu_finalize for one child entry. */
  method PropagateInto(rw: Rewriter, pd: Option<Expr>, e: Entry) returns (e': Entry)
    modifies rw
    ensures Propagated(pd, e, e') && (e'.dep.Some? ==> NoTwins(e'.dep.value))
    ensures |e'.props| == |e.props| && forall i :: 0 <= i < |e.props| ==> Reduced(e'.props[i].visible, Promotes(e))
    ensures rw.transCount == old(rw.transCount)
  {
    var basedep := Conjoin(rw, pd, e.dep, false);
    var props: seq<Property> := [];
    var i := 0;
    while i < |e.props|
      invariant 0 <= i <= |e.props| && |props| == i
      invariant rw.transCount == old(rw.transCount)
      invariant forall k :: 0 <= k < i ==> Reduced(props[k].visible, Promotes(e))
      invariant forall k :: 0 <= k < i ==> props[k] == e.props[k].(visible := props[k].visible)
      invariant NormalOpt(pd) ==> forall k :: 0 <= k < i ==> NormalOpt(props[k].visible)
      invariant forall v: Valuation, k | WellFormed(v) && OrderableEntry(e, v) && 0 <= k < i ::
                  var want := TriAnd(EvalOpt(basedep, v), EvalOpt(e.props[k].visible, v));
                  if Promotes(e) then NormalOpt(pd) ==> Promote(EvalOpt(props[k].visible, v)) == Promote(want)
                  else EvalOpt(props[k].visible, v) == want
    {
      var dep := Conjoin(rw, basedep, e.props[i].visible, Promotes(e));
      props := props + [e.props[i].(visible := dep)];
      i := i + 1;
    }
    e' := Entry(e.sym, e.prompt, basedep, props);
  }

  // ----- the condition an entry ends up with -----

  predicate Live(e: Option<Expr>, v: Valuation) { EvalOpt(e, v) != NO }

  /** Given the gate of the entry's own surroundings, the gate of its children:
      below a choice the choice's value, otherwise the entry's condition and its
      prompt's. */
  predicate Gate(e: Entry, up: bool, v: Valuation, choices: set<Symbol>)
  {
    if e.sym.Some? && e.sym.value in choices then v(e.sym.value).tri != NO
    else up && Live(e.dep, v) && Live(PromptCond(e), v)
  }

  /** The same for all valuations at once. */
  type Scope = Valuation -> bool

  function GateOf(e: Entry, up: Scope, choices: set<Symbol>): Scope {
    (v: Valuation) => Gate(e, up(v), v, choices)
  }

  /** In v the finished entry cur is not n only where its original condition and all
      enclosing gates are not n; when exact, precisely there. */
  predicate GatedIn(orig: Entry, cur: Entry, v: Valuation, up: bool, exact: bool)
  {
    && NormalEntry(cur)
    && (Live(cur.dep, v) ==> up && Live(orig.dep, v))
    && (Live(PromptCond(cur), v) && cur.prompt.Some? ==> up && Live(orig.dep, v) && Live(PromptCond(orig), v))
    && (exact ==>
          && (up && Live(orig.dep, v) ==> Live(cur.dep, v))
          && (up && Live(orig.dep, v) && Live(PromptCond(orig), v) && cur.prompt.Some? ==> Live(PromptCond(cur), v)))
  }

  /** The finished entry has the shape it had, and is gated in every valuation in ok. */
  ghost predicate Gated(orig: Entry, cur: Entry, ok: Scope, up: Scope, exact: bool) {
    SameShape(orig, cur) && forall v: Valuation | ok(v) :: GatedIn(orig, cur, v, up(v), exact)
  }

  /** v is a valuation in which every original condition can be evaluated. */
  ghost predicate Evaluable(orig: seq<Entry>, v: Valuation) {
    WellFormed(v) && forall i :: 0 <= i < |orig| ==> OrderableEntry(orig[i], v)
  }

  /** In every valuation in ok all original conditions can be evaluated. */
  ghost predicate Admits(orig: seq<Entry>, ok: Scope) { forall v: Valuation | ok(v) :: Evaluable(orig, v) }

  /** Every entry of the original forest f is gated by all entries around it. */
  ghost predicate AllGated(orig: seq<Entry>, cur: seq<Entry>, f: seq<Tree>, ok: Scope, up: Scope,
                           choices: set<Symbol>, exact: bool)
    requires |orig| == |cur|
  {
    f == [] ||
    (&& f[0].id < |orig|
     && Gated(orig[f[0].id], cur[f[0].id], ok, up, exact)
     && AllGated(orig, cur, f[0].kids, ok, GateOf(orig[f[0].id], up, choices), choices, exact)
     && AllGated(orig, cur, f[1..], ok, up, choices, exact))
  }

  /** The roots of f are gated already; what is below them is untouched. */
  ghost predicate Entered(orig: seq<Entry>, cur: seq<Entry>, f: seq<Tree>, ok: Scope, up: Scope, exact: bool)
    requires |orig| == |cur|
  {
    f == [] ||
    (&& f[0].id < |orig|
     && Gated(orig[f[0].id], cur[f[0].id], ok, up, exact)
     && (forall x :: x in Pre(f[0].kids) && x < |orig| ==> cur[x] == orig[x])
     && Entered(orig, cur, f[1..], ok, up, exact))
  }

  /** e' is e behind tests that tristate choices are y; when exact, it is e. */
  predicate Tested(e: Option<Expr>, e': Option<Expr>, exact: bool)
    decreases if e'.Some? then Size(e'.value) else 0
  {
    e' == e ||
    (!exact && e'.Some? &&
     match e'.value
     case Cmp(Equal, c, k) => e.None? && c.typ == TTristate && k == SYM_YES
     case Bin(Conj, Cmp(Equal, c, k), x) => c.typ == TTristate && k == SYM_YES && Tested(e, Some(x), exact)
     case _ => false)
  }

  lemma {:induction false} TestedTrans(a: Option<Expr>, b: Option<Expr>, c: Option<Expr>, exact: bool)
    requires Tested(a, b, exact) && Tested(b, c, exact)
    ensures Tested(a, c, exact)
    decreases if c.Some? then Size(c.value) else 0
  {
    if c != b && c.value.Bin? { TestedTrans(a, b, Some(c.value.right), exact); }
  }

  /** A tested condition still mentions what it mentioned. */
  lemma {:induction false} TestedMentions(e: Option<Expr>, e': Option<Expr>, s: Symbol, exact: bool)
    requires Tested(e, e', exact) && e.Some? && ContainsSymbol(e.value, s)
    ensures e'.Some? && ContainsSymbol(e'.value, s)
    decreases if e'.Some? then Size(e'.value) else 0
  {
    if e' != e { TestedMentions(e, Some(e'.value.right), s, exact); }
  }

  /** A later change to an entry, which only puts tests before its conditions, and when
      exact leaves them. */
  ghost predicate Narrowed(e: Entry, e': Entry, exact: bool)
  {
    && SameShape(e, e') && (NormalEntry(e) ==> NormalEntry(e'))
    && Tested(e.dep, e'.dep, exact)
    && (forall i :: 0 <= i < |e.props| ==> Tested(e.props[i].visible, e'.props[i].visible, exact))
    && (forall i :: |e.props| <= i < |e'.props| ==> e'.props[i].kind == PChoice)
    && forall v: Valuation ::
         && (Live(e'.dep, v) ==> Live(e.dep, v)) && (Live(PromptCond(e'), v) ==> Live(PromptCond(e), v))
         && (exact ==> (Live(e.dep, v) ==> Live(e'.dep, v)) && (Live(PromptCond(e), v) ==> Live(PromptCond(e'), v)))
  }

  lemma GatedNarrow(orig: Entry, cur: Entry, cur': Entry, ok: Scope, up: Scope, exact: bool)
    requires Gated(orig, cur, ok, up, exact) && Narrowed(cur, cur', exact)
    ensures Gated(orig, cur', ok, up, exact)
  {
    forall i | 0 <= i < |orig.props| ensures cur'.props[i] == orig.props[i].(visible := cur'.props[i].visible) {
      assert cur.props[i] == orig.props[i].(visible := cur.props[i].visible);
    }
    forall v: Valuation | ok(v) ensures GatedIn(orig, cur', v, up(v), exact) {
      assert GatedIn(orig, cur, v, up(v), exact);
    }
  }

  lemma {:induction false} AllGatedNarrow(orig: seq<Entry>, cur: seq<Entry>, cur': seq<Entry>, f: seq<Tree>,
                                          ids: seq<nat>, ok: Scope, up: Scope, choices: set<Symbol>, exact: bool)
    requires |orig| == |cur| == |cur'|
    requires AllGated(orig, cur, f, ok, up, choices, exact) && NarrowedUpTo(cur, cur', |cur|, ids, exact)
    ensures AllGated(orig, cur', f, ok, up, choices, exact)
  {
    if f != [] {
      var x := f[0].id;
      NarrowedAt(cur, cur', |cur|, x, ids, exact);
      GatedNarrow(orig[x], cur[x], cur'[x], ok, up, exact);
      AllGatedNarrow(orig, cur, cur', f[0].kids, ids, ok, GateOf(orig[x], up, choices), choices, exact);
      AllGatedNarrow(orig, cur, cur', f[1..], ids, ok, up, choices, exact);
    }
  }

  lemma {:induction false} AllGatedFrame(orig: seq<Entry>, cur: seq<Entry>, cur': seq<Entry>, f: seq<Tree>,
                                         ok: Scope, up: Scope, choices: set<Symbol>, exact: bool)
    requires |orig| == |cur| == |cur'| && AllGated(orig, cur, f, ok, up, choices, exact)
    requires forall x :: x in Pre(f) && x < |cur| ==> cur'[x] == cur[x]
    ensures AllGated(orig, cur', f, ok, up, choices, exact)
  {
    if f != [] {
      PreUnfold(f);
      AllGatedFrame(orig, cur, cur', f[0].kids, ok, GateOf(orig[f[0].id], up, choices), choices, exact);
      AllGatedFrame(orig, cur, cur', f[1..], ok, up, choices, exact);
    }
  }

  lemma {:induction false} AllGatedAppend(orig: seq<Entry>, cur: seq<Entry>, f: seq<Tree>, g: seq<Tree>,
                                          ok: Scope, up: Scope, choices: set<Symbol>, exact: bool)
    requires |orig| == |cur|
    requires AllGated(orig, cur, f, ok, up, choices, exact) && AllGated(orig, cur, g, ok, up, choices, exact)
    ensures AllGated(orig, cur, f + g, ok, up, choices, exact)
  {
    if f == [] {
      assert f + g == g;
    } else {
      assert (f + g)[0] == f[0] && (f + g)[1..] == f[1..] + g;
      AllGatedAppend(orig, cur, f[1..], g, ok, up, choices, exact);
    }
  }

  lemma {:induction false} EnteredFrame(orig: seq<Entry>, cur: seq<Entry>, cur': seq<Entry>, f: seq<Tree>, k: nat,
                                        ok: Scope, up: Scope, exact: bool)
    requires |orig| == |cur| == |cur'| && k <= |f|
    requires Entered(orig, cur, f, ok, up, exact)
    requires forall x :: x in Pre(f[k..]) && x < |cur| ==> cur'[x] == cur[x]
    ensures Entered(orig, cur', f[k..], ok, up, exact)
    decreases f
  {
    if k > 0 {
      assert f[k..] == f[1..][k - 1..];
      EnteredFrame(orig, cur, cur', f[1..], k - 1, ok, up, exact);
    } else {
      assert f[0..] == f;
      if f != [] {
        PreUnfold(f);
        assert f[0].id in Pre(f) && f[1..][0..] == f[1..];
        EnteredFrame(orig, cur, cur', f[1..], 0, ok, up, exact);
      }
    }
  }

  /** The condition pd hands down the gate up. */
  ghost predicate Inherits(pd: Option<Expr>, ok: Scope, up: Scope, exact: bool) {
    forall v: Valuation | ok(v) :: NormalOpt(pd) && (Live(pd, v) ==> up(v)) && (exact && up(v) ==> Live(pd, v))
  }

  lemma PropagatedGated(pd: Option<Expr>, e: Entry, e': Entry, ok: Scope, up: Scope, exact: bool)
    requires Propagated(pd, e, e') && Inherits(pd, ok, up, exact)
    requires forall v: Valuation | ok(v) :: WellFormed(v) && OrderableEntry(e, v)
    ensures Gated(e, e', ok, up, exact)
  {
    forall v: Valuation | ok(v) ensures GatedIn(e, e', v, up(v), exact) {
      if e.prompt.Some? { assert PropagatedProp(pd, e, e', e.prompt.value, v); }
    }
  }

  /** parentdep: what the children of an entry inherit. */
  function ParentDep(e: Entry, choices: set<Symbol>): Option<Expr>
  {
    if e.sym.Some? && e.sym.value in choices then Some(Sym(e.sym.value)) else Cond(e)
  }

  lemma ParentDepGate(orig: Entry, cur: Entry, ok: Scope, up: Scope, choices: set<Symbol>, exact: bool)
    requires Gated(orig, cur, ok, up, exact)
    ensures Inherits(ParentDep(cur, choices), ok, GateOf(orig, up, choices), exact)
  {
    forall v: Valuation | ok(v)
      ensures NormalOpt(ParentDep(cur, choices))
      ensures Live(ParentDep(cur, choices), v) ==> GateOf(orig, up, choices)(v)
      ensures exact && GateOf(orig, up, choices)(v) ==> Live(ParentDep(cur, choices), v)
    {
      assert GatedIn(orig, cur, v, up(v), exact);
      if cur.prompt.Some? { assert cur.props[cur.prompt.value] in cur.props; }
    }
  }

  /** rev_dep expressions; a symbol without one is not in the map. */
  type RevDeps = map<Symbol, Expr>

  function Lookup(m: RevDeps, s: Symbol): Option<Expr> { if s in m then Some(m[s]) else None }

  /** The value sym_calc_visibility starts from: no rev_dep is n. */
  function RevValue(m: RevDeps, s: Symbol, v: Valuation): Tristate { if s in m then Eval(m[s], v) else NO }

  /** es->rev_dep.expr = es->rev_dep.expr || (selector && dep), for the first n properties. */
  function WithSelects(m: RevDeps, e: Entry, n: nat): RevDeps
    requires n <= |e.props|
  {
    if n == 0 || e.sym.None? then m
    else
      var m' := WithSelects(m, e, n - 1);
      var p := e.props[n - 1];
      if p.kind != PSelect then m'
      else
        var sel := AllocAnd(Some(Sym(e.sym.value)), p.visible);
        m'[p.target := AllocOr(Lookup(m', p.target), sel).value]
  }

  /** Every select of the entry is registered with its target, and no target loses
      what was registered before. */
  lemma {:induction false} SelectsRegistered(m: RevDeps, e: Entry, n: nat, i: nat, s: Symbol, v: Valuation)
    requires n <= |e.props|
    ensures RevValue(m, s, v) <= RevValue(WithSelects(m, e, n), s, v)
    ensures i < n && e.sym.Some? && e.props[i].kind == PSelect ==>
              TriAnd(v(e.sym.value).tri, EvalOpt(e.props[i].visible, v))
              <= RevValue(WithSelects(m, e, n), e.props[i].target, v)
  {
    if n > 0 && e.sym.Some? {
      SelectsRegistered(m, e, n - 1, i, s, v);
      if i < n {
        SelectsRegistered(m, e, n - 1, i, e.props[i].target, v);
        if e.props[n - 1].kind == PSelect { LastSelect(m, e, n, v); }
      }
    }
  }

  lemma LastSelect(m: RevDeps, e: Entry, n: nat, v: Valuation)
    requires 0 < n <= |e.props| && e.sym.Some? && e.props[n - 1].kind == PSelect
    ensures TriAnd(v(e.sym.value).tri, EvalOpt(e.props[n - 1].visible, v))
            <= RevValue(WithSelects(m, e, n), e.props[n - 1].target, v)
  {
    AllocAndValue(Some(Sym(e.sym.value)), e.props[n - 1].visible, v);
  }

  /** Every select of the entry is an alternative of its target's reverse dependency. */
  ghost predicate Registered(m: RevDeps, e: Entry) {
    e.sym.Some? ==> forall i | 0 <= i < |e.props| && e.props[i].kind == PSelect :: SelectIn(m, e.sym.value, e.props[i])
  }

  ghost predicate SelectIn(m: RevDeps, s: Symbol, p: Property) {
    forall v: Valuation :: TriAnd(v(s).tri, EvalOpt(p.visible, v)) <= RevValue(m, p.target, v)
  }

  ghost predicate AllRegistered(m: RevDeps, es: seq<Entry>, done: set<nat>) {
    forall x :: x in done ==> x < |es| && Registered(m, es[x])
  }

  // ----- what a run does, in order -----

  /** A moment of a run: the enclosing condition has been propagated into entry x, which is
      now e; the condition of entry x, which never had a list, has been added to the direct
      dependencies of its symbol; menu_finalize(x) is over; the last loop of
      menu_finalize(m) has looked at entry c. */
  datatype Event = Entering(x: nat, e: Entry) | Direct(x: nat, e: Entry) | Leaving(x: nat, e: Entry)
                 | Visiting(m: nat, c: nat)

  type Log = seq<Event>

  function Enters(v: Event): set<nat> { if v.Entering? then {v.x} else {} }

  function Directs(v: Event): set<nat> { if v.Direct? then {v.x} else {} }

  function Leaves(v: Event): set<nat> { if v.Leaving? then {v.x} else {} }

  function Touches(v: Event): set<nat> { if v.Visiting? then {} else {v.x} }

  function Visits(v: Event): set<(nat, nat)> { if v.Visiting? then {(v.m, v.c)} else {} }

  /** f over all events. */
  function Each<T(==)>(log: Log, f: Event -> set<T>): set<T> {
    if log == [] then {} else Each(log[..|log| - 1], f) + f(log[|log| - 1])
  }

  lemma {:induction false} EachAppend<T>(a: Log, b: Log, f: Event -> set<T>)
    ensures Each(a + b, f) == Each(a, f) + Each(b, f)
  {
    if b == [] {
      assert a + b == a;
    } else {
      var n := |b| - 1;
      assert (a + b)[..|a + b| - 1] == a + b[..n] && (a + b)[|a + b| - 1] == b[n];
      EachAppend(a, b[..n], f);
    }
  }

  lemma EachGrows<T>(a: Log, b: Log, f: Event -> set<T>)
    requires a <= b
    ensures Each(a, f) <= Each(b, f)
  {
    assert b == a + b[|a|..];
    EachAppend(a, b[|a|..], f);
  }

  /** sym->rev_dep.expr = sym->rev_dep.expr || (prompt && m), for a symbol that is not optional. */
  function WithMandatory(m: RevDeps, e: Entry, optional: set<Symbol>): RevDeps {
    if e.sym.Some? && e.sym.value !in optional && e.prompt.Some? then
      OrInto(m, e.sym.value, AllocAnd(PromptCond(e), Some(Sym(SYM_MOD))))
    else m
  }

  /** The reverse dependencies that these events make. */
  function RevOf(log: Log, optional: set<Symbol>): RevDeps {
    if log == [] then map[]
    else
      var m := RevOf(log[..|log| - 1], optional);
      match log[|log| - 1]
      case Entering(_, e) => WithSelects(m, e, |e.props|)
      case Leaving(_, e) => WithMandatory(m, e, optional)
      case _ => m
  }

  /** The direct dependencies. */
  function DirOf(log: Log): RevDeps {
    if log == [] then map[]
    else
      var m := DirOf(log[..|log| - 1]);
      match log[|log| - 1]
      case Direct(_, e) => if e.sym.Some? then OrInto(m, e.sym.value, e.dep) else m
      case _ => m
  }

  /** The last loop of menu_finalize makes the symbol of c a member of the choice of m. */
  predicate Joins(es: seq<Entry>, choices: set<Symbol>, m: nat, c: nat) {
    m < |es| && c < |es| && es[m].sym.Some? && es[m].sym.value in choices && es[c].sym.Some?
  }

  /** The choice of each member: the first that looked at it. */
  function MemberOf(log: Log, es: seq<Entry>, choices: set<Symbol>): map<Symbol, Symbol> {
    if log == [] then map[]
    else
      var of := MemberOf(log[..|log| - 1], es, choices);
      match log[|log| - 1]
      case Visiting(m, c) =>
        if Joins(es, choices, m, c) && es[c].sym.value !in of then of[es[c].sym.value := es[m].sym.value] else of
      case _ => of
  }

  /** The members of each choice, in order. */
  function MembersIn(log: Log, es: seq<Entry>, choices: set<Symbol>): map<Symbol, seq<Symbol>> {
    if log == [] then map[]
    else
      var l, of := MembersIn(log[..|log| - 1], es, choices), MemberOf(log[..|log| - 1], es, choices);
      match log[|log| - 1]
      case Visiting(m, c) =>
        if Joins(es, choices, m, c) && es[c].sym.value !in of then
          var s := es[m].sym.value;
          l[s := (if s in l then l[s] else []) + [es[c].sym.value]]
        else l
      case _ => l
  }

  /** What an event says of the entries as they are now; before holds the earlier events. */
  ghost predicate EventOk(before: Log, v: Event, es: seq<Entry>, home: seq<Link>, exact: bool) {
    match v
    case Entering(x, e) => x < |es| && Narrowed(e, es[x], exact)
    case Direct(x, e) => x < |es| && Narrowed(e, es[x], exact) && x < |home| && home[x].list == NULL
    case Leaving(x, e) =>
      && x < |es| && Narrowed(e, es[x], exact) && x < |home|
      && (home[x].list == NULL && e.sym.Some? ==> x in Each(before, Directs))
      && (x in Each(before, Enters) || home[x].parent == NULL)
    case Visiting(m, c) => m < |es| && c < |es|
  }

  ghost predicate Logged(log: Log, es: seq<Entry>, home: seq<Link>, exact: bool) {
    log == [] ||
    (&& Logged(log[..|log| - 1], es, home, exact)
     && EventOk(log[..|log| - 1], log[|log| - 1], es, home, exact))
  }

  lemma LogSnoc(log: Log, v: Event)
    ensures (log + [v])[..|log + [v]| - 1] == log && (log + [v])[|log + [v]| - 1] == v
  {
  }

  /** An entry nothing has happened to yet can be changed at will. */
  lemma {:induction false} LogFrame(log: Log, es: seq<Entry>, es': seq<Entry>, home: seq<Link>, exact: bool, x: nat)
    requires Logged(log, es, home, exact) && x !in Each(log, Touches) && x < |es| == |es'| && es' == es[x := es'[x]]
    ensures Logged(log, es', home, exact)
  {
    if log != [] { LogFrame(log[..|log| - 1], es, es', home, exact, x); }
  }

  lemma LogEntering(log: Log, es: seq<Entry>, home: seq<Link>, exact: bool, x: nat, e: Entry)
    requires Logged(log, es, home, exact) && x !in Each(log, Touches) && x < |es|
    ensures Logged(log + [Entering(x, e)], es[x := e], home, exact)
  {
    LogFrame(log, es, es[x := e], home, exact, x);
    LogSnoc(log, Entering(x, e));
  }

  lemma LogVisiting(log: Log, es: seq<Entry>, home: seq<Link>, exact: bool, m: nat, c: nat)
    requires Logged(log, es, home, exact) && m < |es| && c < |es|
    ensures Logged(log + [Visiting(m, c)], es, home, exact)
  {
    LogSnoc(log, Visiting(m, c));
  }

  /** The entry at hand. */
  lemma LogNow(log: Log, es: seq<Entry>, home: seq<Link>, exact: bool, v: Event)
    requires Logged(log, es, home, exact) && !v.Visiting? && v.x < |es| && v.e == es[v.x] && v.x < |home|
    requires v.Direct? ==> home[v.x].list == NULL
    requires v.Leaving? && home[v.x].list == NULL && v.e.sym.Some? ==> v.x in Each(log, Directs)
    requires v.Leaving? ==> v.x in Each(log, Enters) || home[v.x].parent == NULL
    ensures Logged(log + [v], es, home, exact)
  {
    LogSnoc(log, v);
  }

  /** An entry can be narrowed. */
  lemma {:induction false} LogNarrow(log: Log, es: seq<Entry>, es': seq<Entry>, home: seq<Link>, exact: bool, x: nat)
    requires Logged(log, es, home, exact)
    requires x < |es| == |es'| && es' == es[x := es'[x]] && Narrowed(es[x], es'[x], exact)
    ensures Logged(log, es', home, exact)
  {
    if log != [] {
      LogNarrow(log[..|log| - 1], es, es', home, exact, x);
      var v := log[|log| - 1];
      if !v.Visiting? && v.x == x { NarrowedTrans(v.e, es[x], es'[x], exact); }
    }
  }

  /** c is n wherever the choice s is not y. */
  ghost predicate Fence(c: Option<Expr>, s: Symbol) {
    forall v: Valuation :: Compare(Equal, s, SYM_YES, v) == NO ==> EvalOpt(c, v) == NO
  }

  /** The entry is a member of the choice s; if only s is tristate, all its conditions are n
      wherever s is not y. */
  ghost predicate Fenced(e: Entry, s: Symbol) {
    && (exists i :: 0 <= i < |e.props| && e.props[i].kind == PChoice && e.props[i].target == s)
    && (e.sym.Some? && s.typ == TTristate && e.sym.value.typ != TTristate ==>
          && Fence(e.dep, s)
          && forall i :: 0 <= i < |e.props| && e.props[i].kind != PChoice ==> Fence(e.props[i].visible, s))
  }

  /** Looking at c in the list of m after these events makes it a member. */
  predicate NewMember(before: Log, es: seq<Entry>, choices: set<Symbol>, m: nat, c: nat) {
    Joins(es, choices, m, c) && es[c].sym.value !in MemberOf(before, es, choices)
  }

  /** The entries that have become members are so still. */
  ghost predicate Fences(log: Log, orig: seq<Entry>, es: seq<Entry>, choices: set<Symbol>) {
    log == [] ||
    (&& Fences(log[..|log| - 1], orig, es, choices)
     && FenceOk(log[..|log| - 1], log[|log| - 1], orig, es, choices))
  }

  ghost predicate FenceOk(before: Log, v: Event, orig: seq<Entry>, es: seq<Entry>, choices: set<Symbol>) {
    v.Visiting? && NewMember(before, orig, choices, v.m, v.c) ==>
      v.c < |es| && v.c in Each(before, Touches) && Fenced(es[v.c], orig[v.m].sym.value)
  }

  lemma FenceSnoc(log: Log, v: Event, orig: seq<Entry>, es: seq<Entry>, choices: set<Symbol>)
    requires Fences(log, orig, es, choices) && FenceOk(log, v, orig, es, choices)
    ensures Fences(log + [v], orig, es, choices)
  {
    LogSnoc(log, v);
  }

  lemma {:induction false} FenceFrame(log: Log, orig: seq<Entry>, es: seq<Entry>, es': seq<Entry>, choices: set<Symbol>,
                                      x: nat)
    requires Fences(log, orig, es, choices) && x !in Each(log, Touches) && x < |es| == |es'| && es' == es[x := es'[x]]
    ensures Fences(log, orig, es', choices)
  {
    if log != [] { FenceFrame(log[..|log| - 1], orig, es, es', choices, x); }
  }

  lemma {:induction false} FenceNarrow(log: Log, orig: seq<Entry>, es: seq<Entry>, es': seq<Entry>,
                                       choices: set<Symbol>, x: nat, exact: bool)
    requires Fences(log, orig, es, choices)
    requires x < |es| == |es'| && es' == es[x := es'[x]] && Narrowed(es[x], es'[x], exact)
    ensures Fences(log, orig, es', choices)
  {
    if log != [] {
      var v := log[|log| - 1];
      FenceNarrow(log[..|log| - 1], orig, es, es', choices, x, exact);
      if v.Visiting? && v.c == x && NewMember(log[..|log| - 1], orig, choices, v.m, v.c) {
        FencedNarrow(es[x], es'[x], orig[v.m].sym.value, exact);
      }
    }
  }

  lemma FencedNarrow(e: Entry, e': Entry, s: Symbol, exact: bool)
    requires Fenced(e, s) && Narrowed(e, e', exact)
    ensures Fenced(e', s)
  {
    var i :| 0 <= i < |e.props| && e.props[i].kind == PChoice && e.props[i].target == s;
    assert e'.props[i] == e.props[i].(visible := e'.props[i].visible);
    if e.sym.Some? && s.typ == TTristate && e.sym.value.typ != TTristate {
      FenceTested(e.dep, e'.dep, s, exact);
      forall i | 0 <= i < |e'.props| && e'.props[i].kind != PChoice ensures Fence(e'.props[i].visible, s) {
        assert e'.props[i] == e.props[i].(visible := e'.props[i].visible);
        FenceTested(e.props[i].visible, e'.props[i].visible, s, exact);
      }
    }
  }

  lemma FenceTested(c: Option<Expr>, c': Option<Expr>, s: Symbol, exact: bool)
    requires Fence(c, s) && Tested(c, c', exact)
    ensures Fence(c', s)
  {
    forall v: Valuation | Compare(Equal, s, SYM_YES, v) == NO ensures EvalOpt(c', v) == NO {
      TestedBelow(c, c', exact, v);
    }
  }

  // ----- the table and the procedure -----

  class MenuTable {
    const choices: set<Symbol>
    const optional: set<Symbol>
    const rw: Rewriter
    var links: seq<Link>
    var entries: seq<Entry>
    var revDep: RevDeps
    var dirDep: RevDeps
    /** SYMBOL_CHOICEVAL and the choice property of its members */
    var memberOf: map<Symbol, Symbol>
    /** the value list of each choice's own choice property */
    var members: map<Symbol, seq<Symbol>>
    /** what has happened so far */
    ghost var log: Log
    /** the links the table was built with */
    ghost const home: seq<Link>

    constructor (links: seq<Link>, entries: seq<Entry>, choices: set<Symbol>, optional: set<Symbol>)
      ensures this.links == links && this.entries == entries
      ensures this.choices == choices && this.optional == optional
      ensures Untouched() && home == links
      ensures fresh(rw)
    {
      this.links, this.entries, this.choices, this.optional := links, entries, choices, optional;
      revDep, dirDep, memberOf, members := map[], map[], map[], map[];
      log := [];
      home := links;
      rw := new Rewriter();
    }

    /** No tristate choice: then no member gets an extra "choice = y" condition. */
    ghost predicate Exact() { forall c :: c in choices ==> c.typ != TTristate }

    /** Nothing has been finalized yet. */
    ghost predicate Untouched() reads this {
      revDep == map[] && dirDep == map[] && memberOf == map[] && members == map[] && log == []
    }

    /** The tables are what the events make them. */
    ghost predicate Recorded(orig: seq<Entry>)
      reads this`log, this`revDep, this`dirDep, this`memberOf, this`members
    {
      && revDep == RevOf(log, optional) && dirDep == DirOf(log)
      && memberOf == MemberOf(log, orig, choices) && members == MembersIn(log, orig, choices)
    }

    /** Between two steps: prompts keep their texts, and the tables hold what has happened. */
    ghost predicate Kept(orig: seq<Entry>)
      reads this`entries, this`log, this`revDep, this`dirDep, this`memberOf, this`members
    {
      && SameTexts(orig, entries) && Logged(log, entries, home, Exact()) && Recorded(orig)
      && Fences(log, orig, entries, choices)
    }

    /** The propagation loop over the children of m. */
    method Propagate(m: nat, ghost kids: seq<Tree>, ghost orig: seq<Entry>)
      requires |links| == |entries| && m < |links| && Kept(orig)
      requires Seg(links, kids, links[m].list, NULL, m) && Distinct(Pre(kids)) && Ahead(kids, log)
      modifies this`entries, this`revDep, this`log, rw
      ensures |entries| == old(|entries|) && Kept(orig)
      ensures Known(kids, log) && Began(old(log), log, kids)
      ensures forall x :: x in Roots(kids) ==> x < |entries|
      ensures forall x :: x in Roots(kids) ==>
                Propagated(ParentDep(old(entries[m]), choices), old(entries[x]), entries[x])
      ensures forall x :: 0 <= x < |entries| && x !in Roots(kids) ==> entries[x] == old(entries[x])
    {
      var pd := ParentDep(entries[m], choices);
      var menu := links[m].list;
      ghost var es, roots := entries, Roots(kids);
      SiblingAt(links, kids, menu, m, 0);
      PropagatedNone(pd, entries, roots, links);
      ghost var j, news: Log := 0, [];
      while menu != NULL
        invariant 0 <= j <= |roots| && menu == NthOr(roots, j, NULL)
        invariant |entries| == |links| && Kept(orig) && log == old(log) + news && NewsOf(news, roots, j)
        invariant PropagatedTo(pd, es, entries, roots, j)
        decreases |roots| - j
      {
        SiblingAt(links, kids, links[m].list, m, j);
        news := PropagateNext(pd, menu, orig, kids, es, old(log), news, j);
        menu := links[menu].next;
        j := j + 1;
      }
      PropagatedKnown(kids, old(log), news);
      PropagatedAll(pd, es, entries, roots, j);
    }

    /** The loop body for the j-th child. */
    method PropagateNext(pd: Option<Expr>, menu: nat, ghost orig: seq<Entry>, ghost kids: seq<Tree>,
                         ghost es: seq<Entry>, ghost log0: Log, ghost news: Log, ghost j: nat)
        returns (ghost news': Log)
      requires Distinct(Pre(kids)) && Ahead(kids, log0) && j < |kids| && menu == Roots(kids)[j] && Kept(orig)
      requires log == log0 + news && NewsOf(news, Roots(kids), j) && PropagatedTo(pd, es, entries, Roots(kids), j)
      modifies this`entries, this`revDep, this`log, rw
      ensures log == log0 + news' && NewsOf(news', Roots(kids), j + 1)
      ensures PropagatedTo(pd, es, entries, Roots(kids), j + 1) && Kept(orig)
    {
      NotYet(kids, log0, news, j);
      ghost var before, log1 := entries, log;
      PropagateChild(pd, menu, orig);
      RootsDistinct(kids);
      PropagatedOne(pd, es, before, entries, Roots(kids), j);
      news' := NewsOne(log0, log1, log, news, Roots(kids), j, entries[menu]);
    }

    method PropagateChild(pd: Option<Expr>, menu: nat, ghost orig: seq<Entry>)
      requires menu < |entries| && Kept(orig) && menu !in Each(log, Touches)
      modifies this`entries, this`revDep, this`log, rw
      ensures Kept(orig) && log == old(log) + [Entering(menu, entries[menu])]
      ensures |entries| == old(|entries|) && entries == old(entries)[menu := entries[menu]]
      ensures Propagated(pd, old(entries[menu]), entries[menu])
      ensures revDep == WithSelects(old(revDep), entries[menu], |entries[menu].props|)
    {
      var e := PropagateInto(rw, pd, entries[menu]);
      LogEntering(log, entries, home, Exact(), menu, e);
      FenceFrame(log, orig, entries, entries[menu := e], choices, menu);
      FenceSnoc(log, Entering(menu, e), orig, entries[menu := e], choices);
      LogSnoc(log, Entering(menu, e));
      entries := entries[menu := e];
      revDep := WithSelects(revDep, e, |e.props|);
      log := log + [Entering(menu, e)];
    }

    /** The inner loop of the flattening step: every entry of the block below menu
        gets m as its parent; returns the last one. */
    method Hoist(m: nat, menu: nat, ghost c: seq<Tree>) returns (last: nat)
      requires menu < |links| && c != [] && Distinct(Pre(c)) && menu !in Pre(c)
      requires Seg(links, c, links[menu].list, NULL, menu)
      modifies this`links
      ensures |links| == old(|links|) && links[menu] == old(links[menu])
      ensures last == c[|c| - 1].id && Seg(links, c, links[menu].list, NULL, m)
      ensures SameElsewhere(old(links), links, Pre(c))
    {
      var cur := links[menu].list;
      ghost var i := 0;
      while true
        invariant 0 <= i < |c| && |links| == old(|links|) && links[menu] == old(links[menu])
        invariant Seg(links, c[..i], links[menu].list, cur, m) && Seg(links, c[i..], cur, NULL, menu)
        invariant SameElsewhere(old(links), links, Pre(c))
        decreases |c| - i
      {
        ReparentStep(links, c, i, links[menu].list, cur, menu, m);
        links := links[cur := links[cur].(parent := m)];
        if links[cur].next == NULL {
          break;
        }
        cur := links[cur].next;
        i := i + 1;
      }
      assert c[i + 1..] == [] && c[..i + 1] == c;
      last := cur;
    }

    /** The choice bookkeeping of the last loop for one child menu of the choice s. */
    method AdoptMember(s: Symbol, menu: nat)
      requires menu < |entries| && s in choices
      requires entries[menu].sym.Some? && entries[menu].sym.value !in memberOf
      modifies this`entries, this`memberOf, this`members
      ensures |entries| == old(|entries|) && entries == old(entries)[menu := entries[menu]]
      ensures Narrowed(old(entries[menu]), entries[menu], Exact()) && Fenced(entries[menu], s)
      ensures memberOf == old(memberOf)[entries[menu].sym.value := s]
      ensures members ==
              old(members)[s := (if s in old(members) then old(members)[s] else []) + [entries[menu].sym.value]]
    {
      var sym := entries[menu].sym.value;
      memberOf := memberOf[sym := s];
      AdoptedNarrows(entries[menu], s, Exact());
      AdoptedFenced(entries[menu], s);
      entries := entries[menu := AdoptedEntry(entries[menu], s)];
      members := members[s := (if s in members then members[s] else []) + [sym]];
    }

    /** The last loop of menu_finalize over the children of m: choice members are
        registered, and the block below an entry without a prompt text becomes
        part of the list the entry is in. */
    method Flatten(m: nat, ghost kids: seq<Tree>, ghost orig: seq<Entry>) returns (ghost kids': seq<Tree>)
      requires |links| == |entries| && m < |links| && Distinct(Pre(kids)) && m !in Pre(kids) && Kept(orig)
      requires Seg(links, kids, links[m].list, NULL, m) && Ids(kids) <= Each(log, Touches)
      modifies this`links, this`entries, this`memberOf, this`members, this`log
      ensures |links| == |entries| == old(|entries|) && links[m] == old(links[m]) && Kept(orig)
      ensures Seg(links, kids', links[m].list, NULL, m) && Pre(kids') == Pre(kids)
      ensures SameElsewhere(old(links), links, Pre(kids))
      ensures NarrowedUpTo(old(entries), entries, |entries|, Pre(kids), Exact())
      ensures kids' == Flattened(orig, kids) && log == old(log) + VisitsOf(m, Roots(kids'))
    {
      var menu := links[m].list;
      ghost var done, rest := [], kids;
      ghost var was, es := links, entries;
      NarrowedSelf(es, |es|, Pre(kids), Exact());
      while menu != NULL
        invariant |links| == |entries| == |es| && Traversing(was, links, m, menu, kids, done, rest)
        invariant NarrowedUpTo(es, entries, |es|, Pre(kids), Exact()) && Kept(orig)
        invariant done + Flattened(orig, rest) == Flattened(orig, kids)
        invariant log == old(log) + VisitsOf(m, Roots(done)) && Ids(kids) <= Each(log, Touches)
        decreases |Pre(rest)|
      {
        menu, done, rest := FlattenNext(m, menu, orig, es, kids, was, done, rest, old(log));
      }
      TraversingEnd(was, links, m, kids, done, rest);
      kids' := done;
    }

    /** The loop body. */
    method FlattenNext(m: nat, menu: nat, ghost orig: seq<Entry>, ghost es: seq<Entry>, ghost kids: seq<Tree>,
                       ghost was: seq<Link>, ghost done: seq<Tree>, ghost rest: seq<Tree>, ghost log0: Log)
        returns (next: int, ghost done': seq<Tree>, ghost rest': seq<Tree>)
      requires |links| == |entries| == |es| && Traversing(was, links, m, menu, kids, done, rest) && Kept(orig)
      requires NarrowedUpTo(es, entries, |es|, Pre(kids), Exact())
      requires log == log0 + VisitsOf(m, Roots(done)) && Ids(kids) <= Each(log, Touches)
      modifies this`links, this`entries, this`memberOf, this`members, this`log
      ensures |links| == |entries| == |es| && Traversing(was, links, m, next, kids, done', rest') && Kept(orig)
      ensures NarrowedUpTo(es, entries, |es|, Pre(kids), Exact())
      ensures done' + Flattened(orig, rest') == done + Flattened(orig, rest) && |Pre(rest')| < |Pre(rest)|
      ensures log == log0 + VisitsOf(m, Roots(done')) && Ids(kids) <= Each(log, Touches)
    {
      ghost var log1 := log;
      VisitMember(m, menu, orig, es, kids, was, done, rest);
      next, done', rest' := FlattenRest(m, menu, orig, es, kids, was, done, rest, log0, log1);
    }

    /** ... once the entry has been looked at. */
    method FlattenRest(m: nat, menu: nat, ghost orig: seq<Entry>, ghost es: seq<Entry>, ghost kids: seq<Tree>,
                       ghost was: seq<Link>, ghost done: seq<Tree>, ghost rest: seq<Tree>, ghost log0: Log,
                       ghost log1: Log)
        returns (next: int, ghost done': seq<Tree>, ghost rest': seq<Tree>)
      requires |links| == |entries| == |es| && Traversing(was, links, m, menu, kids, done, rest)
      requires Kept(orig) && NarrowedUpTo(es, entries, |es|, Pre(kids), Exact()) && Ids(kids) <= Each(log, Touches)
      requires log1 == log0 + VisitsOf(m, Roots(done)) && log == log1 + [Visiting(m, menu)]
      modifies this`links
      ensures |links| == |entries| == |es| && Traversing(was, links, m, next, kids, done', rest') && Kept(orig)
      ensures NarrowedUpTo(es, entries, |es|, Pre(kids), Exact()) && Ids(kids) <= Each(log, Touches)
      ensures done' + Flattened(orig, rest') == done + Flattened(orig, rest) && |Pre(rest')| < |Pre(rest)|
      ensures log == log0 + VisitsOf(m, Roots(done'))
    {
      done', rest' := FlattenOne(m, menu, orig, kids, was, done, rest);
      VisitsSnoc(m, done, done', log0, log1, log);
      next := links[menu].next;
    }

    /** The choice part of the loop body. */
    method VisitMember(m: nat, menu: nat, ghost orig: seq<Entry>, ghost es: seq<Entry>, ghost kids: seq<Tree>,
                       ghost was: seq<Link>, ghost done: seq<Tree>, ghost rest: seq<Tree>)
      requires |links| == |entries| == |es| && Traversing(was, links, m, menu, kids, done, rest) && Kept(orig)
      requires NarrowedUpTo(es, entries, |es|, Pre(kids), Exact())
      requires Ids(kids) <= Each(log, Touches)
      modifies this`entries, this`memberOf, this`members, this`log
      ensures |entries| == |es| && NarrowedUpTo(es, entries, |es|, Pre(kids), Exact()) && Kept(orig)
      ensures log == old(log) + [Visiting(m, menu)] && Ids(kids) <= Each(log, Touches)
    {
      TraversingFront(was, links, m, menu, kids, done, rest);
      ghost var before, log0 := entries, log;
      AdoptIfMember(m, menu, orig);
      EachGrows(log0, log, Touches);
      if entries != before {
        NarrowOne(es, before, entries, |es|, menu, Pre(kids), Exact());
      }
    }

    /** The entry is seen, and becomes a member if the list is that of a choice. */
    method AdoptIfMember(m: nat, menu: nat, ghost orig: seq<Entry>)
      requires m < |entries| && menu < |entries| && Kept(orig) && menu in Each(log, Touches)
      modifies this`entries, this`memberOf, this`members, this`log
      ensures |entries| == old(|entries|) && entries == old(entries)[menu := entries[menu]] && Kept(orig)
      ensures entries == old(entries) || Narrowed(old(entries[menu]), entries[menu], Exact())
      ensures log == old(log) + [Visiting(m, menu)]
    {
      ghost var before, log1 := entries, log + [Visiting(m, menu)];
      LogVisiting(log, entries, home, Exact(), m, menu);
      LogSnoc(log, Visiting(m, menu));
      var sym := entries[m].sym;
      if sym.Some? && sym.value in choices && entries[menu].sym.Some? && entries[menu].sym.value !in memberOf {
        AdoptMember(sym.value, menu);
        LogNarrow(log1, before, entries, home, Exact(), menu);
        FenceNarrow(log, orig, before, entries, choices, menu, Exact());
        TextsNarrow(orig, before, entries, menu, Exact());
      }
      FenceSnoc(log, Visiting(m, menu), orig, entries, choices);
      log := log1;
    }

    /** One entry of the list: splice its block in behind it if it has no prompt text. */
    method FlattenOne(m: nat, menu: nat, ghost orig: seq<Entry>, ghost kids: seq<Tree>,
                      ghost was: seq<Link>, ghost done: seq<Tree>, ghost rest: seq<Tree>)
        returns (ghost done': seq<Tree>, ghost rest': seq<Tree>)
      requires |links| == |entries| && Traversing(was, links, m, menu, kids, done, rest)
      requires SameTexts(orig, entries)
      modifies this`links
      ensures |links| == old(|links|) && menu < |links|
      ensures done' + Flattened(orig, rest') == done + Flattened(orig, rest)
      ensures |done'| == |done| + 1 && done' == done + done'[|done|..] && done'[|done|].id == menu
      ensures Traversing(was, links, m, links[menu].next, kids, done', rest') && |Pre(rest')| < |Pre(rest)|
    {
      ghost var before := links;
      TraversingFront(was, links, m, menu, kids, done, rest);
      FlattenedStep(orig, links, m, menu, done, rest);
      if links[menu].list != NULL && !HasPromptText(entries[menu]) {
        ghost var c := rest[0].kids;
        FrontKids(links, m, menu, done, rest);
        var last := Hoist(m, menu, c);
        AdvanceSplice(before, links, m, menu, done, rest);
        ghost var spliced := Spliced(links, menu, last);
        links := links[last := links[last].(next := links[menu].next)];
        links := links[menu := links[menu].(next := links[menu].list, list := NULL)];
        assert links == spliced;
        done', rest' := done + [Tree(menu, [])], c + rest[1..];
      } else {
        AdvanceKeep(links, m, menu, done, rest);
        done', rest' := done + rest[..1], rest[1..];
      }
      TraversingAdvance(was, before, links, m, menu, kids, done, rest, done', rest');
    }

    /** The loop that finalizes every entry of the list below m. */
    method FinalizeList(m: nat, ghost kids: seq<Tree>, ghost orig: seq<Entry>, ghost ok: Scope, ghost gate: Scope)
        returns (ghost kids': seq<Tree>)
      requires |links| == |entries| == |orig| && m < |links| && m !in Pre(kids)
      requires Seg(links, kids, links[m].list, NULL, m) && Distinct(Pre(kids))
      requires Admits(orig, ok) && Entered(orig, entries, kids, ok, gate, Exact()) && Kept(orig) && Known(kids, log)
      requires AtHome(home, kids, m)
      modifies this, rw
      ensures |links| == |entries| == |orig|
      ensures Sweeping(old(links), links, m, NULL, kids, |kids|, kids')
      ensures Progress(orig, old(entries), entries, kids, |kids|, ok, gate, choices, Exact())
      ensures Kept(orig) && Took(old(log), log, orig, kids, kids', {}) && KidsDeep(orig, kids')
      ensures Explained(home, entries, kids', Exact()) && RootsHome(home, m, kids')
      decreases |Pre(kids)|, 2
    {
      ghost var was, es := links, entries;
      ghost var j: nat := 0;
      kids' := [];
      var menu := links[m].list;
      assert kids[0..] == kids && kids[..0] == [];
      TookNothing(log, orig);
      while menu != NULL
        invariant |links| == |entries| == |orig|
        invariant Sweeping(was, links, m, menu, kids, j, kids')
        invariant Progress(orig, es, entries, kids, j, ok, gate, choices, Exact())
        invariant Kept(orig) && Took(old(log), log, orig, kids[..j], kids', {}) && KidsDeep(orig, kids')
        invariant Explained(home, entries, kids', Exact()) && RootsHome(home, m, kids')
        decreases |Pre(kids[j..])|
      {
        SweepFront(was, links, m, menu, kids, j, kids');
        kids', j := ListOne(m, menu, kids, orig, ok, gate, was, es, kids', j, old(log));
        menu := links[menu].next;
      }
      SweepDone(links, kids, j, m);
    }

    method ListOne(m: nat, menu: nat, ghost kids: seq<Tree>, ghost orig: seq<Entry>, ghost ok: Scope, ghost gate: Scope,
                   ghost was: seq<Link>, ghost es: seq<Entry>, ghost done: seq<Tree>, ghost j: nat, ghost log0: Log)
        returns (ghost done': seq<Tree>, ghost j': nat)
      requires |links| == |entries| == |orig| && Sweeping(was, links, m, menu, kids, j, done)
      requires Admits(orig, ok) && Progress(orig, es, entries, kids, j, ok, gate, choices, Exact())
      requires Kept(orig) && Known(kids, log0) && Took(log0, log, orig, kids[..j], done, {}) && KidsDeep(orig, done)
      requires AtHome(home, kids, m) && Explained(home, entries, done, Exact()) && RootsHome(home, m, done)
      modifies this, rw
      ensures |links| == |entries| == |orig| && menu < |links|
      ensures Sweeping(was, links, m, links[menu].next, kids, j', done')
      ensures Progress(orig, es, entries, kids, j', ok, gate, choices, Exact())
      ensures Kept(orig) && Took(log0, log, orig, kids[..j'], done', {}) && KidsDeep(orig, done')
      ensures Explained(home, entries, done', Exact()) && RootsHome(home, m, done')
      ensures |Pre(kids[j'..])| < |Pre(kids[j..])|
      decreases |Pre(kids[j..])|, 1
    {
      SweepFront(was, links, m, menu, kids, j, done);
      ghost var mid, mes := links, entries;
      ghost var log1 := log;
      KnownStep(kids, j, log0, log, orig, done);
      KnownHead(kids, j, log);
      AtHomeFrom(home, kids, m, j);
      ghost var g, k := Finalize(menu, kids[j..], m, orig, ok, gate);
      done', j' := done + g[..1], j + k;
      TookStep(kids, j, k, j', log0, log1, log, orig, done, g);
      DeepStep(orig, done, g, done');
      ExplainedStep(home, mes, entries, kids, j, k, done, g, Exact());
      RootsHomeStep(home, m, done, g, kids, j);
      SweptOne(orig, es, mes, entries, was, mid, links, m, menu, kids, j, j', done, done', g, k, ok, gate, choices,
               Exact());
    }

    /** The branch of menu_finalize for an entry s without a list of its own: take
        following siblings that depend on it. */
    method Absorb(m: nat, s: Symbol, ghost r: seq<Tree>, ghost par: int, ghost orig: seq<Entry>,
                  ghost ok: Scope, ghost up: Scope)
        returns (ghost d: seq<Tree>, ghost k: nat, ghost log1: Log)
      requires |links| == |entries| == |orig| && m < |links| && m !in Pre(r) && links[m].parent == par
      requires Seg(links, r, links[m].next, NULL, par) && Distinct(Pre(r)) && links[m].list == NULL
      requires Admits(orig, ok) && Entered(orig, entries, r, ok, up, Exact()) && Kept(orig) && Known(r, log)
      requires AtHome(home, r, par) && entries[m].sym == Some(s) && m < |home| && home[m].list == NULL
      modifies this, rw
      ensures |links| == |entries| == |orig| && k <= |r|
      ensures Rebuilt(old(links), links, [Tree(m, [])] + r, [Tree(m, d)] + r[k..], k + 1, m, par)
      ensures Progress(orig, old(entries), entries, r, k, ok, up, choices, Exact())
      ensures Kept(orig) && Took(old(log), log1, orig, r[..k], d, {}) && KidsDeep(orig, d)
      ensures log == log1 + [Direct(m, entries[m])]
      ensures entries[m] == old(entries[m])
      ensures AllNested(entries, m, s, d) && Explained(home, entries, d, Exact())
      ensures k < |r| ==> r[k].id < |entries| && !Nests(PromptCond(entries[m]), s, Cond(entries[r[k].id]))
      decreases |Pre(r)|, 2
    {
      ghost var was := links;
      var menu, lastMenu;
      menu, lastMenu, d, k := AbsorbSiblings(m, s, r, par, orig, ok, up);
      AbsorbStopped(was, links, m, menu, r, k, d, lastMenu, par);
      TakeSiblings(m, menu, lastMenu, was, r, k, d, par);
      log1 := log;
      AddDirect(m, s, orig);
    }

    /** The conditions of the entries of s without a list are the direct dependencies. */
    method AddDirect(m: nat, s: Symbol, ghost orig: seq<Entry>)
      requires m < |entries| && entries[m].sym == Some(s) && Kept(orig) && m < |home| && home[m].list == NULL
      modifies this`dirDep, this`log
      ensures Kept(orig) && log == old(log) + [Direct(m, entries[m])]
    {
      LogNow(log, entries, home, Exact(), Direct(m, entries[m]));
      FenceSnoc(log, Direct(m, entries[m]), orig, entries, choices);
      LogSnoc(log, Direct(m, entries[m]));
      dirDep := OrInto(dirDep, s, entries[m].dep);
      log := log + [Direct(m, entries[m])];
    }

    /** Its loop: as long as they depend on it, the following entries are finalized and get
        the entry as their parent. */
    method AbsorbSiblings(m: nat, s: Symbol, ghost r: seq<Tree>, ghost par: int, ghost orig: seq<Entry>,
                          ghost ok: Scope, ghost up: Scope)
        returns (menu: int, lastMenu: int, ghost d: seq<Tree>, ghost k: nat)
      requires |links| == |entries| == |orig| && m < |links| && m !in Pre(r) && links[m].parent == par
      requires Seg(links, r, links[m].next, NULL, par) && Distinct(Pre(r)) && links[m].list == NULL
      requires Admits(orig, ok) && Entered(orig, entries, r, ok, up, Exact()) && Kept(orig) && Known(r, log)
      requires AtHome(home, r, par)
      modifies this, rw
      ensures |links| == |entries| == |orig|
      ensures Absorbing(old(links), links, m, menu, r, k, d, lastMenu, par)
      ensures Progress(orig, old(entries), entries, r, k, ok, up, choices, Exact())
      ensures Kept(orig) && Took(old(log), log, orig, r[..k], d, {}) && KidsDeep(orig, d)
      ensures entries[m] == old(entries[m]) && AllNested(entries, m, s, d) && Explained(home, entries, d, Exact())
      ensures menu != NULL ==>
                0 <= menu < |entries| && !Nests(PromptCond(entries[m]), s, Cond(entries[menu]))
      decreases |Pre(r)|, 2, 0
    {
      ghost var was, es := links, entries;
      d, k := [], 0;
      lastMenu := NULL;
      var pdep := PromptCond(entries[m]);
      var basedep := NotNoTest(rw, pdep);
      menu := links[m].next;
      assert r[0..] == r && r[..0] == [];
      TookNothing(log, orig);
      while menu != NULL
        invariant |links| == |entries| == |orig|
        invariant Absorbing(was, links, m, menu, r, k, d, lastMenu, par)
        invariant Progress(orig, es, entries, r, k, ok, up, choices, Exact())
        invariant Kept(orig) && Took(old(log), log, orig, r[..k], d, {}) && KidsDeep(orig, d)
        invariant entries[m] == es[m] && AllNested(entries, m, s, d) && Explained(home, entries, d, Exact())
        decreases |Pre(r[k..])|
      {
        AbsorbFront(was, links, m, menu, r, k, d, lastMenu, par);
        var nest := ShouldNest(rw, pdep, basedep, s, Cond(entries[menu]));
        if !nest {
          break;
        }
        ghost var d', k';
        d', k' := AbsorbOne(m, s, menu, r, par, orig, ok, up, was, es, d, k, lastMenu, old(log));
        d, k := d', k';
        lastMenu := menu;
        menu := links[menu].next;
      }
    }

    /** The siblings up to lastMenu become the list of m. */
    method TakeSiblings(m: nat, menu: int, lastMenu: int, ghost was: seq<Link>, ghost r: seq<Tree>, ghost k: nat,
                        ghost d: seq<Tree>, ghost par: int)
      requires Absorbing(was, links, m, menu, r, k, d, lastMenu, par) && was[m].parent == par && was[m].list == NULL
      modifies this`links
      ensures |links| == |old(links)|
      ensures Rebuilt(was, links, [Tree(m, [])] + r, [Tree(m, d)] + r[k..], k + 1, m, par)
    {
      if lastMenu != NULL {
        AbsorbEnd(was, links, m, menu, r, k, d, lastMenu, par);
        links := links[m := links[m].(list := links[m].next)];
        links := links[m := links[m].(next := links[lastMenu].next)];
        links := links[lastMenu := links[lastMenu].(next := NULL)];
      } else {
        AbsorbNothing(was, links, m, menu, r, k, par);
      }
    }

    /** One turn of that loop, once the entry menu is known to belong below m. */
    method AbsorbOne(m: nat, s: Symbol, menu: nat, ghost r: seq<Tree>, ghost par: int, ghost orig: seq<Entry>,
                     ghost ok: Scope, ghost up: Scope, ghost was: seq<Link>, ghost es: seq<Entry>,
                     ghost d: seq<Tree>, ghost k: nat, ghost lastMenu: int, ghost log0: Log)
        returns (ghost d': seq<Tree>, ghost k': nat)
      requires |links| == |entries| == |orig|
      requires Absorbing(was, links, m, menu, r, k, d, lastMenu, par)
      requires Admits(orig, ok) && Progress(orig, es, entries, r, k, ok, up, choices, Exact())
      requires Kept(orig) && Known(r, log0) && Took(log0, log, orig, r[..k], d, {}) && KidsDeep(orig, d)
      requires menu < |entries| && Justified(entries[m], s, entries[menu])
      requires entries[m] == es[m] && AllNested(entries, m, s, d)
      requires AtHome(home, r, par) && Explained(home, entries, d, Exact())
      modifies this, rw
      ensures |links| == |entries| == |orig| && menu < |links|
      ensures Absorbing(was, links, m, links[menu].next, r, k', d', menu, par)
      ensures Progress(orig, es, entries, r, k', ok, up, choices, Exact())
      ensures Kept(orig) && Took(log0, log, orig, r[..k'], d', {}) && KidsDeep(orig, d')
      ensures entries[m] == es[m] && AllNested(entries, m, s, d') && Explained(home, entries, d', Exact())
      ensures |Pre(r[k'..])| < |Pre(r[k..])|
      decreases |Pre(r[k..])|, 1
    {
      ghost var mid := links;
      ghost var g, n;
      g, n, d', k' := FinalizeSibling(m, s, menu, r, par, orig, ok, up, was, es, d, k, lastMenu, log0);
      AbsorbedLinks(was, mid, links, Moved(links, menu, m), m, menu, r, k, k', d, d', lastMenu, par, g, n);
      MoveBelow(m, s, menu, r, par, orig, ok, up, was, es, d', k', log0);
    }

    /** The entry gets its new parent. */
    method MoveBelow(m: nat, s: Symbol, menu: nat, ghost r: seq<Tree>, ghost par: int, ghost orig: seq<Entry>,
                     ghost ok: Scope, ghost up: Scope, ghost was: seq<Link>, ghost es: seq<Entry>,
                     ghost d: seq<Tree>, ghost k: nat, ghost log0: Log)
      requires |links| == |entries| == |orig| && menu < |links|
      requires Absorbing(was, Moved(links, menu, m), m, links[menu].next, r, k, d, menu, par)
      requires Progress(orig, es, entries, r, k, ok, up, choices, Exact())
      requires Kept(orig) && Took(log0, log, orig, r[..k], d, {}) && KidsDeep(orig, d)
      requires entries[m] == es[m] && AllNested(entries, m, s, d) && Explained(home, entries, d, Exact())
      modifies this`links
      ensures |links| == |entries| == |orig| && menu < |links|
      ensures Absorbing(was, links, m, links[menu].next, r, k, d, menu, par)
      ensures Progress(orig, es, entries, r, k, ok, up, choices, Exact())
      ensures Kept(orig) && Took(log0, log, orig, r[..k], d, {}) && KidsDeep(orig, d)
      ensures entries[m] == es[m] && AllNested(entries, m, s, d) && Explained(home, entries, d, Exact())
    {
      links := links[menu := links[menu].(parent := m)];
    }

    /** menu_finalize on the sibling that has been reached. */
    method FinalizeSibling(m: nat, s: Symbol, menu: nat, ghost r: seq<Tree>, ghost par: int, ghost orig: seq<Entry>,
                           ghost ok: Scope, ghost up: Scope, ghost was: seq<Link>, ghost es: seq<Entry>,
                           ghost d: seq<Tree>, ghost k: nat, ghost lastMenu: int, ghost log0: Log)
        returns (ghost g: seq<Tree>, ghost n: nat, ghost d': seq<Tree>, ghost k': nat)
      requires |links| == |entries| == |orig| && Absorbing(was, links, m, menu, r, k, d, lastMenu, par)
      requires Admits(orig, ok) && Progress(orig, es, entries, r, k, ok, up, choices, Exact())
      requires Kept(orig) && Known(r, log0) && Took(log0, log, orig, r[..k], d, {}) && KidsDeep(orig, d)
      requires menu < |entries| && Justified(entries[m], s, entries[menu])
      requires entries[m] == es[m] && AllNested(entries, m, s, d)
      requires AtHome(home, r, par) && Explained(home, entries, d, Exact())
      modifies this, rw
      ensures |links| == |entries| == |orig| && menu < |links|
      ensures Rebuilt(old(links), links, r[k..], g, n, menu, par) && k' == k + n && d' == d + g[..1]
      ensures Progress(orig, es, entries, r, k', ok, up, choices, Exact())
      ensures Kept(orig) && Took(log0, log, orig, r[..k'], d', {}) && KidsDeep(orig, d')
      ensures entries[m] == es[m] && AllNested(entries, m, s, d') && Explained(home, entries, d', Exact())
      decreases |Pre(r[k..])|, 1, 0
    {
      ghost var mid, mes, log1 := links, entries, log;
      AbsorbFront(was, links, m, menu, r, k, d, lastMenu, par);
      KnownStep(r, k, log0, log, orig, d);
      KnownHead(r, k, log);
      AtHomeFrom(home, r, par, k);
      g, n := Finalize(menu, r[k..], par, orig, ok, up);
      d', k' := d + g[..1], k + n;
      AbsorbedOne(orig, home, es, mes, entries, was, mid, m, s, menu, r, k, k', d, d', lastMenu, par, g, n,
                  log0, log1, log, ok, up, choices, Exact());
    }

    /** menu_finalize(m). The sibling list f starts at m; orig holds all entries as
        they were before the outermost call. */
    method Finalize(m: nat, ghost f: seq<Tree>, ghost par: int, ghost orig: seq<Entry>, ghost ok: Scope,
                    ghost up: Scope)
        returns (ghost g: seq<Tree>, ghost k: nat)
      requires |links| == |entries| == |orig| && f != []
      requires Seg(links, f, m, NULL, par) && Distinct(Pre(f))
      requires Admits(orig, ok) && Entered(orig, entries, f, ok, up, Exact()) && Kept(orig) && Open(f, log)
      requires AtHome(home, f, par) && (par == NULL || m in Each(log, Enters))
      modifies this, rw
      ensures |links| == |entries| == |orig|
      ensures Rebuilt(old(links), links, f, g, k, m, par)
      ensures Finished(orig, old(entries), entries, f, k, m, ok, up, choices, Exact())
      ensures Kept(orig) && Took(old(log), log, orig, f[..k], g[..1], {})
      ensures g != [] && DeepFlat(orig, g[0].kids) && Explained(home, entries, g[..1], Exact())
      decreases |Pre(f)|, 0
    {
      ghost var was, es := links, entries;
      PreUnfold(f);
      SegFirst(links, f, m, NULL, par);
      var sym := entries[m].sym;
      g, k := FinalizeNesting(m, sym, f, par, orig, ok, up);
      ghost var log1 := log;
      g := FlattenBelow(m, f, g, k, par, orig, ok, up, was, es, old(log));
      Leave(m, f, g, k, par, orig, ok, up, was, es, old(log), log1);
    }

    /** The last loop of menu_finalize(m), after the entries below m are finalized. */
    method FlattenBelow(m: nat, ghost f: seq<Tree>, ghost g: seq<Tree>, ghost k: nat, ghost par: int,
                        ghost orig: seq<Entry>, ghost ok: Scope, ghost up: Scope,
                        ghost was: seq<Link>, ghost es: seq<Entry>, ghost log0: Log)
        returns (ghost g': seq<Tree>)
      requires |links| == |entries| == |orig| && Distinct(Pre(f)) && Kept(orig)
      requires Rebuilt(was, links, f, g, k, m, par) && Finished(orig, es, entries, f, k, m, ok, up, choices, Exact())
      requires KidsDeep(orig, g[0].kids) && Explained(home, entries, g[..1], Exact())
      requires Took(log0, log, orig, f[..k], g[0].kids, {m})
      modifies this`links, this`entries, this`memberOf, this`members, this`log
      ensures |links| == |entries| == |orig| && m < |entries| && Kept(orig)
      ensures old(log) <= log && entries[m].sym == old(entries)[m].sym
      ensures g' != [] && Took(log0, log, orig, f[..k], g'[..1], {m})
      ensures Rebuilt(was, links, f, g', k, m, par) && Finished(orig, es, entries, f, k, m, ok, up, choices, Exact())
      ensures g' != [] && DeepFlat(orig, g'[0].kids) && Explained(home, entries, g'[..1], Exact())
    {
      ghost var mid, mes := links, entries;
      RebuiltKids(was, links, f, g, k, m, par);
      KidsTouched(log0, log, orig, was, links, f, g, k, m, par);
      ghost var kids := Flatten(m, g[0].kids, orig);
      g' := [Tree(m, kids)] + g[1..];
      FlattenRebuilt(was, mid, links, f, g, k, m, par, kids);
      FlattenFinished(orig, es, mes, entries, f, g, k, m, ok, up, choices, Exact());
      FlattenedDeep(orig, g[0].kids);
      FlatListExplained(home, orig, mes, entries, m, g, kids, Exact());
      assert g'[..1] == [Tree(m, kids)];
      TookFlattened(log0, old(log), log, orig, f[..k], g[0].kids, kids, m, {m});
    }

    /** The end of menu_finalize(m). */
    method Leave(m: nat, ghost f: seq<Tree>, ghost g: seq<Tree>, ghost k: nat, ghost par: int, ghost orig: seq<Entry>,
                 ghost ok: Scope, ghost up: Scope, ghost was: seq<Link>, ghost es: seq<Entry>, ghost log0: Log,
                 ghost log1: Log)
      requires m < |entries| && Kept(orig) && m < |home| && log0 <= log1 <= log
      requires home[m].list == NULL && entries[m].sym.Some? ==> m in Each(log1, Directs)
      requires home[m].parent == NULL || m in Each(log0, Enters)
      requires f != [] && f[0].id == m && k <= |f| && g != [] && Took(log0, log, orig, f[..k], g[..1], {m})
      requires Rebuilt(was, links, f, g, k, m, par) && Finished(orig, es, entries, f, k, m, ok, up, choices, Exact())
      requires DeepFlat(orig, g[0].kids) && Explained(home, entries, g[..1], Exact())
      modifies this`revDep, this`log
      ensures Kept(orig) && Took(log0, log, orig, f[..k], g[..1], {})
      ensures Rebuilt(was, links, f, g, k, m, par) && Finished(orig, es, entries, f, k, m, ok, up, choices, Exact())
      ensures DeepFlat(orig, g[0].kids) && Explained(home, entries, g[..1], Exact())
    {
      EachGrows(log1, log, Directs);
      EachGrows(log0, log, Enters);
      TookLeave(log0, log, log + [Leaving(m, entries[m])], orig, f, g, k, m);
      AddMandatory(m, orig);
    }

    /** A symbol that is not optional can be m wherever its prompt is visible. */
    method AddMandatory(m: nat, ghost orig: seq<Entry>)
      requires m < |entries| && Kept(orig) && m < |home|
      requires home[m].list == NULL && entries[m].sym.Some? ==> m in Each(log, Directs)
      requires home[m].parent == NULL || m in Each(log, Enters)
      modifies this`revDep, this`log
      ensures Kept(orig) && log == old(log) + [Leaving(m, entries[m])]
    {
      ghost var v := Leaving(m, entries[m]);
      LogNow(log, entries, home, Exact(), v);
      FenceSnoc(log, v, orig, entries, choices);
      LogSnoc(log, v);
      var sym := entries[m].sym;
      if sym.Some? && sym.value !in optional && entries[m].prompt.Some? {
        revDep := OrInto(revDep, sym.value, AllocAnd(PromptCond(entries[m]), Some(Sym(SYM_MOD))));
      }
      log := log + [v];
    }

    /** The entries below m, or the ones that follow it, are dealt with. */
    method FinalizeNesting(m: nat, sym: Option<Symbol>, ghost f: seq<Tree>, ghost par: int, ghost orig: seq<Entry>,
                           ghost ok: Scope, ghost up: Scope)
        returns (ghost g: seq<Tree>, ghost k: nat)
      requires |links| == |entries| == |orig| && f != [] && m < |links| && sym == entries[m].sym
      requires Seg(links, f, m, NULL, par) && Distinct(Pre(f))
      requires Admits(orig, ok) && Entered(orig, entries, f, ok, up, Exact()) && Kept(orig) && Open(f, log)
      requires AtHome(home, f, par)
      modifies this, rw
      ensures |links| == |entries| == |orig|
      ensures Rebuilt(old(links), links, f, g, k, m, par)
      ensures Finished(orig, old(entries), entries, f, k, m, ok, up, choices, Exact())
      ensures Kept(orig) && g != [] && Took(old(log), log, orig, f[..k], g[0].kids, {m})
      ensures home[m].list == NULL && entries[m].sym.Some? ==> m in Each(log, Directs)
      ensures KidsDeep(orig, g[0].kids) && Explained(home, entries, g[..1], Exact())
      decreases |Pre(f)|, 0, 1
    {
      if links[m].list != NULL {
        g, k := FinalizeBlock(m, f, par, orig, ok, up);
      } else if sym.Some? {
        g, k := FinalizeLeaf(m, sym.value, f, par, orig, ok, up);
      } else {
        g, k := f, 1;
        SegNull(links, f[0].kids, NULL, m);
        NothingBelow(home, entries, f, m, Exact());
        TookNone(log, orig, f, m);
        LeafUntouched(links, f, m, par, orig, entries, ok, up, choices, Exact());
      }
    }

    method FinalizeBlock(m: nat, ghost f: seq<Tree>, ghost par: int, ghost orig: seq<Entry>,
                         ghost ok: Scope, ghost up: Scope)
        returns (ghost g: seq<Tree>, ghost k: nat)
      requires |links| == |entries| == |orig| && f != [] && m < |links| && links[m].list != NULL
      requires Seg(links, f, m, NULL, par) && Distinct(Pre(f))
      requires Admits(orig, ok) && Entered(orig, entries, f, ok, up, Exact()) && Kept(orig) && Open(f, log)
      requires AtHome(home, f, par)
      modifies this, rw
      ensures |links| == |entries| == |orig|
      ensures Rebuilt(old(links), links, f, g, k, m, par)
      ensures Finished(orig, old(entries), entries, f, k, m, ok, up, choices, Exact())
      ensures Kept(orig) && g != [] && Took(old(log), log, orig, f[..k], g[0].kids, {m})
      ensures home[m].list == NULL && entries[m].sym.Some? ==> m in Each(log, Directs)
      ensures KidsDeep(orig, g[0].kids) && Explained(home, entries, g[..1], Exact())
      decreases |Pre(f)|, 0, 0
    {
      ghost var was := links;
      PreUnfold(f);
      SegFirst(links, f, m, NULL, par);
      ghost var kids' := FinalizeKids(m, f, par, orig, ok, up);
      g, k := [Tree(m, kids')] + f[1..], 1;
      BlockRebuilt(was, links, f, g, k, m, par, kids');
      RootLinked(home, entries, m, kids', Exact());
      assert g[..1] == [Tree(m, kids')];
    }

    method PropagateKids(m: nat, ghost f: seq<Tree>, ghost par: int, ghost orig: seq<Entry>, ghost ok: Scope,
                         ghost up: Scope)
      requires |links| == |entries| == |orig| && f != [] && m < |links|
      requires Seg(links, f, m, NULL, par) && Distinct(Pre(f))
      requires Admits(orig, ok) && Entered(orig, entries, f, ok, up, Exact()) && Kept(orig)
      requires Ahead(f[0].kids, log)
      modifies this`entries, this`revDep, this`log, rw
      ensures |entries| == old(|entries|) && Kept(orig)
      ensures Known(f[0].kids, log) && Began(old(log), log, f[0].kids)
      ensures Entered(orig, entries, f[0].kids, ok, GateOf(orig[m], up, choices), Exact())
      ensures forall x :: 0 <= x < |entries| && x !in Roots(f[0].kids) ==> entries[x] == old(entries[x])
    {
      ghost var es := entries;
      PreUnfold(f);
      Propagate(m, f[0].kids, orig);
      PropagateEntered(orig, es, entries, f, m, ok, up, choices, Exact());
    }

    /** Propagate into the children, then finalize them. */
    method FinalizeKids(m: nat, ghost f: seq<Tree>, ghost par: int, ghost orig: seq<Entry>, ghost ok: Scope,
                        ghost up: Scope)
        returns (ghost kids': seq<Tree>)
      requires |links| == |entries| == |orig| && f != [] && m < |links|
      requires Seg(links, f, m, NULL, par) && Distinct(Pre(f))
      requires Admits(orig, ok) && Entered(orig, entries, f, ok, up, Exact()) && Kept(orig) && Open(f, log)
      requires AtHome(home, f, par)
      modifies this, rw
      ensures |links| == |entries| == |orig|
      ensures Sweeping(old(links), links, m, NULL, f[0].kids, |f[0].kids|, kids')
      ensures Finished(orig, old(entries), entries, f, 1, m, ok, up, choices, Exact())
      ensures Kept(orig) && Took(old(log), log, orig, f[..1], kids', {m})
      ensures KidsDeep(orig, kids') && Explained(home, entries, kids', Exact()) && RootsHome(home, m, kids')
      decreases |Pre(f)|, 0, 0, 0
    {
      ghost var es, kids := entries, f[0].kids;
      ghost var gate := GateOf(orig[m], up, choices);
      PreUnfold(f);
      PropagateKids(m, f, par, orig, ok, up);
      ghost var mes, log1 := entries, log;
      kids' := FinalizeList(m, kids, orig, ok, gate);
      TookBlock(old(log), log1, log, orig, f, kids', m);
      BlockFinished(orig, es, mes, entries, f, 1, m, ok, up, choices, Exact());
    }

    method FinalizeLeaf(m: nat, s: Symbol, ghost f: seq<Tree>, ghost par: int, ghost orig: seq<Entry>,
                        ghost ok: Scope, ghost up: Scope)
        returns (ghost g: seq<Tree>, ghost k: nat)
      requires |links| == |entries| == |orig| && f != [] && m < |links| && links[m].list == NULL
      requires entries[m].sym == Some(s)
      requires Seg(links, f, m, NULL, par) && Distinct(Pre(f))
      requires Admits(orig, ok) && Entered(orig, entries, f, ok, up, Exact()) && Kept(orig) && Open(f, log)
      requires AtHome(home, f, par)
      modifies this, rw
      ensures |links| == |entries| == |orig|
      ensures Rebuilt(old(links), links, f, g, k, m, par)
      ensures Finished(orig, old(entries), entries, f, k, m, ok, up, choices, Exact())
      ensures Kept(orig) && g != [] && Took(old(log), log, orig, f[..k], g[0].kids, {m})
      ensures home[m].list == NULL && entries[m].sym.Some? ==> m in Each(log, Directs)
      ensures KidsDeep(orig, g[0].kids) && Explained(home, entries, g[..1], Exact())
      decreases |Pre(f)|, 0, 0
    {
      ghost var was, es := links, entries;
      PreUnfold(f);
      SegNull(links, f[0].kids, NULL, m);
      assert f == [Tree(m, [])] + f[1..];
      ghost var d, n, log1 := Absorb(m, s, f[1..], par, orig, ok, up);
      g, k := [Tree(m, d)] + f[1..][n..], n + 1;
      LeafRebuilt(was, links, f, g, d, n, k, m, par);
      NestedLinked(home, entries, m, s, d, Exact());
      RootLinked(home, entries, m, d, Exact());
      assert g[..1] == [Tree(m, d)];
      TookLeaf(old(log), log1, log, orig, f, d, n, k, m);
      LeafFinished(orig, es, entries, f, n, k, m, ok, up, choices, Exact());
    }
  }

  /** sym->dir_dep.expr = sym->dir_dep.expr || e, and likewise for rev_dep. */
  function OrInto(m: RevDeps, s: Symbol, e: Option<Expr>): RevDeps {
    var o := AllocOr(Lookup(m, s), e);
    if o.Some? then m[s := o.value] else m
  }

  /** The code decides to nest c under p, the entry of s. */
  ghost predicate Justified(p: Entry, s: Symbol, c: Entry) { Nests(PromptCond(p), s, Cond(c)) }

  /** ... for every tree m has taken. */
  ghost predicate AllNested(es: seq<Entry>, m: nat, s: Symbol, d: seq<Tree>)
    requires m < |es|
  {
    d == [] || (d[0].id < |es| && Justified(es[m], s, es[d[0].id]) && AllNested(es, m, s, d[1..]))
  }

  lemma NarrowedTrans(a: Entry, b: Entry, c: Entry, exact: bool)
    requires Narrowed(a, b, exact) && Narrowed(b, c, exact)
    ensures Narrowed(a, c, exact)
  {
    TestedTrans(a.dep, b.dep, c.dep, exact);
    forall i | 0 <= i < |a.props|
      ensures c.props[i] == a.props[i].(visible := c.props[i].visible)
      ensures Tested(a.props[i].visible, c.props[i].visible, exact)
    {
      assert b.props[i] == a.props[i].(visible := b.props[i].visible);
      TestedTrans(a.props[i].visible, b.props[i].visible, c.props[i].visible, exact);
    }
  }

  /** The first n entries are narrowed, and unchanged outside ids. */
  ghost predicate NarrowedUpTo(es: seq<Entry>, es': seq<Entry>, n: nat, ids: seq<nat>, exact: bool)
    requires n <= |es| == |es'|
  {
    n == 0 ||
    (&& Narrowed(es[n - 1], es'[n - 1], exact) && (n - 1 in ids || es'[n - 1] == es[n - 1])
     && NarrowedUpTo(es, es', n - 1, ids, exact))
  }

  /** What the flattening loop makes of the list below an entry: a block without a prompt
      text ends up behind the entry it hung below, and is then looked at in turn. */
  ghost function Flattened(es: seq<Entry>, f: seq<Tree>): seq<Tree>
    decreases |Pre(f)|
  {
    if f == [] then []
    else
      PreUnfold(f);
      PreAppend(f[0].kids, f[1..]);
      if f[0].kids != [] && f[0].id < |es| && !HasPromptText(es[f[0].id]) then
        [Tree(f[0].id, [])] + Flattened(es, f[0].kids + f[1..])
      else [f[0]] + Flattened(es, f[1..])
  }

  /** No entry of the forest has a block below it without a prompt text of its own. */
  ghost predicate DeepFlat(es: seq<Entry>, f: seq<Tree>) {
    f == [] ||
    ((f[0].kids != [] && f[0].id < |es| ==> HasPromptText(es[f[0].id])) && DeepFlat(es, f[0].kids) &&
      DeepFlat(es, f[1..]))
  }

  /** ... except perhaps its roots. */
  ghost predicate KidsDeep(es: seq<Entry>, f: seq<Tree>) {
    f == [] || (DeepFlat(es, f[0].kids) && KidsDeep(es, f[1..]))
  }

  lemma {:induction false} DeepKids(es: seq<Entry>, f: seq<Tree>)
    requires DeepFlat(es, f)
    ensures KidsDeep(es, f)
  {
    if f != [] { DeepKids(es, f[1..]); }
  }

  lemma {:induction false} KidsDeepAppend(es: seq<Entry>, f: seq<Tree>, g: seq<Tree>)
    requires KidsDeep(es, f) && KidsDeep(es, g)
    ensures KidsDeep(es, f + g)
  {
    if f == [] {
      assert f + g == g;
    } else {
      assert (f + g)[0] == f[0] && (f + g)[1..] == f[1..] + g;
      KidsDeepAppend(es, f[1..], g);
    }
  }

  lemma DeepStep(es: seq<Entry>, done: seq<Tree>, g: seq<Tree>, done': seq<Tree>)
    requires KidsDeep(es, done) && g != [] && DeepFlat(es, g[0].kids) && done' == done + g[..1]
    ensures KidsDeep(es, done')
  {
    assert g[..1][0] == g[0] && g[..1][1..] == [];
    KidsDeepAppend(es, done, g[..1]);
  }

  /** The flattened list is flat if what hangs below its entries is. */
  lemma {:induction false} FlattenedDeep(es: seq<Entry>, f: seq<Tree>)
    requires KidsDeep(es, f)
    ensures DeepFlat(es, Flattened(es, f)) && Pre(Flattened(es, f)) == Pre(f)
    decreases |Pre(f)|
  {
    if f != [] {
      PreRest(f);
      if f[0].kids != [] && f[0].id < |es| && !HasPromptText(es[f[0].id]) {
        DeepKids(es, f[0].kids);
        KidsDeepAppend(es, f[0].kids, f[1..]);
        FlattenedDeep(es, f[0].kids + f[1..]);
        DeepCons(es, Tree(f[0].id, []), Flattened(es, f[0].kids + f[1..]));
      } else {
        FlattenedDeep(es, f[1..]);
        DeepCons(es, f[0], Flattened(es, f[1..]));
      }
    }
  }

  lemma PreRest(f: seq<Tree>)
    requires f != []
    ensures Pre(f) == [f[0].id] + Pre(f[0].kids + f[1..]) == [f[0].id] + (Pre(f[0].kids) + Pre(f[1..]))
    ensures |Pre(f[0].kids + f[1..])| < |Pre(f)| && |Pre(f[1..])| < |Pre(f)|
  {
    PreUnfold(f);
    PreAppend(f[0].kids, f[1..]);
  }

  lemma DeepCons(es: seq<Entry>, x: Tree, g: seq<Tree>)
    requires DeepFlat(es, x.kids) && DeepFlat(es, g)
    requires x.kids != [] && x.id < |es| ==> HasPromptText(es[x.id])
    ensures DeepFlat(es, [x] + g) && Pre([x] + g) == [x.id] + (Pre(x.kids) + Pre(g))
    ensures x.kids == [] ==> Pre([x] + g) == [x.id] + Pre(g)
  {
    assert ([x] + g)[0] == x && ([x] + g)[1..] == g;
    PreUnfold([x] + g);
  }

  /** Prompts keep their texts through all rewriting of conditions. */
  ghost predicate SameTexts(es: seq<Entry>, es': seq<Entry>) {
    |es| == |es'| &&
    forall x :: 0 <= x < |es| ==> HasPromptText(es'[x]) == HasPromptText(es[x]) && es'[x].sym == es[x].sym
  }

  lemma TextsNarrow(orig: seq<Entry>, es: seq<Entry>, es': seq<Entry>, x: nat, exact: bool)
    requires SameTexts(orig, es) && x < |es| == |es'| && es' == es[x := es'[x]] && Narrowed(es[x], es'[x], exact)
    ensures SameTexts(orig, es')
  {
  }

  lemma FlattenedStep(es: seq<Entry>, ls: seq<Link>, m: nat, n: nat, done: seq<Tree>, rest: seq<Tree>)
    requires |ls| == |es| && AtFront(ls, m, n, done, rest)
    ensures rest[0].id == n && (ls[n].list == NULL <==> rest[0].kids == [])
    ensures done + Flattened(es, rest) ==
            if rest[0].kids != [] && !HasPromptText(es[n]) then
              (done + [Tree(n, [])]) + Flattened(es, rest[0].kids + rest[1..])
            else (done + rest[..1]) + Flattened(es, rest[1..])
  {
    SegNull(ls, rest[0].kids, ls[n].list, n);
    FlattenedNext(es, done, rest);
  }

  lemma FlattenedNext(es: seq<Entry>, done: seq<Tree>, rest: seq<Tree>)
    requires rest != [] && rest[0].id < |es|
    ensures done + Flattened(es, rest) ==
            if rest[0].kids != [] && !HasPromptText(es[rest[0].id]) then
              (done + [Tree(rest[0].id, [])]) + Flattened(es, rest[0].kids + rest[1..])
            else (done + rest[..1]) + Flattened(es, rest[1..])
  {
    if rest[0].kids != [] && !HasPromptText(es[rest[0].id]) {
      Regrouped(done, Tree(rest[0].id, []), Flattened(es, rest[0].kids + rest[1..]));
    } else {
      FirstOnly(rest);
      Regrouped(done, rest[0], Flattened(es, rest[1..]));
    }
  }

  lemma FirstOnly(f: seq<Tree>)
    requires f != []
    ensures f[..1] == [f[0]]
  {
  }

  lemma Regrouped(f: seq<Tree>, x: Tree, g: seq<Tree>)
    ensures f + ([x] + g) == (f + [x]) + g
  {
  }

  lemma {:induction false} NarrowedSelf(es: seq<Entry>, n: nat, ids: seq<nat>, exact: bool)
    requires n <= |es|
    ensures NarrowedUpTo(es, es, n, ids, exact)
  {
    if n > 0 { NarrowedSelf(es, n - 1, ids, exact); }
  }

  lemma {:induction false} NarrowedAt(es: seq<Entry>, es': seq<Entry>, n: nat, x: nat, ids: seq<nat>, exact: bool)
    requires x < n <= |es| == |es'| && NarrowedUpTo(es, es', n, ids, exact)
    ensures Narrowed(es[x], es'[x], exact) && (x in ids || es'[x] == es[x])
  {
    if x < n - 1 { NarrowedAt(es, es', n - 1, x, ids, exact); }
  }

  lemma {:induction false} NarrowOne(es: seq<Entry>, es1: seq<Entry>, es2: seq<Entry>, n: nat, x: nat, ids: seq<nat>,
                                     exact: bool)
    requires n <= |es| == |es1| == |es2| && NarrowedUpTo(es, es1, n, ids, exact)
    requires x < |es| && x in ids && es2 == es1[x := es2[x]] && Narrowed(es1[x], es2[x], exact)
    ensures NarrowedUpTo(es, es2, n, ids, exact)
  {
    if n > 0 {
      NarrowOne(es, es1, es2, n - 1, x, ids, exact);
      if x == n - 1 { NarrowedTrans(es[x], es1[x], es2[x], exact); }
    }
  }

  /** A choice's child after it has become a member: a non-tristate member of a
      tristate choice needs the choice to be y. */
  function AdoptedEntry(e: Entry, s: Symbol): Entry
    requires e.sym.Some?
  {
    var basedep := Some(Cmp(Equal, s, SYM_YES));
    var choiceProp := [Property(PChoice, false, None, s)];
    if s.typ == TTristate && e.sym.value.typ != TTristate then
      Entry(e.sym, e.prompt, AllocAnd(basedep, e.dep), Guarded(basedep, e.props) + choiceProp)
    else Entry(e.sym, e.prompt, e.dep, e.props + choiceProp)
  }

  lemma AdoptedNarrows(e: Entry, s: Symbol, exact: bool)
    requires e.sym.Some? && (exact ==> s.typ != TTristate)
    ensures Narrowed(e, AdoptedEntry(e, s), exact)
  {
    var basedep := Some(Cmp(Equal, s, SYM_YES));
    var e' := AdoptedEntry(e, s);
    AdoptedNormal(e, s);
    forall v: Valuation
      ensures EvalOpt(AllocAnd(basedep, e.dep), v) == TriAnd(EvalOpt(basedep, v), EvalOpt(e.dep, v))
      ensures EvalOpt(AllocAnd(basedep, PromptCond(e)), v) == TriAnd(EvalOpt(basedep, v), EvalOpt(PromptCond(e), v))
    {
      AllocAndValue(basedep, e.dep, v);
      AllocAndValue(basedep, PromptCond(e), v);
    }
  }

  lemma AdoptedFenced(e: Entry, s: Symbol)
    requires e.sym.Some?
    ensures Fenced(AdoptedEntry(e, s), s)
  {
    var basedep := Some(Cmp(Equal, s, SYM_YES));
    var e' := AdoptedEntry(e, s);
    assert e'.props[|e.props|] == Property(PChoice, false, None, s);
    if s.typ == TTristate && e.sym.value.typ != TTristate {
      FenceAnd(e.dep, s);
      forall i | 0 <= i < |e'.props| && e'.props[i].kind != PChoice ensures Fence(e'.props[i].visible, s) {
        assert i < |e.props| && e'.props[i].visible == AllocAnd(basedep, e.props[i].visible);
        FenceAnd(e.props[i].visible, s);
      }
    }
  }

  lemma FenceAnd(c: Option<Expr>, s: Symbol)
    ensures Fence(AllocAnd(Some(Cmp(Equal, s, SYM_YES)), c), s)
  {
    forall v: Valuation | Compare(Equal, s, SYM_YES, v) == NO
      ensures EvalOpt(AllocAnd(Some(Cmp(Equal, s, SYM_YES)), c), v) == NO
    {
      AllocAndValue(Some(Cmp(Equal, s, SYM_YES)), c, v);
    }
  }

  lemma AdoptedNormal(e: Entry, s: Symbol)
    requires e.sym.Some?
    ensures NormalEntry(e) ==> NormalEntry(AdoptedEntry(e, s))
  {
    var e' := AdoptedEntry(e, s);
    if NormalEntry(e) {
      forall p | p in e'.props ensures NormalOpt(p.visible) {
        var i :| 0 <= i < |e'.props| && e'.props[i] == p;
        if i < |e.props| { assert NormalOpt(e.props[i].visible) by { assert e.props[i] in e.props; } }
      }
    }
  }

  // ----- what a run has done with a forest -----

  function IdSet(ids: seq<nat>): set<nat> { set x | x in ids }

  function Ids(f: seq<Tree>): set<nat> { IdSet(Pre(f)) }

  /** The entries below the roots. */
  function Inner(f: seq<Tree>): set<nat> { if f == [] then {} else Ids(f[0].kids) + Inner(f[1..]) }

  /** Nothing has happened to the entries of f. */
  ghost predicate Ahead(f: seq<Tree>, log: Log) { Ids(f) !! Each(log, Touches) }

  /** The roots of f have been propagated into, and nothing has happened below them. */
  ghost predicate Known(f: seq<Tree>, log: Log) {
    IdSet(Roots(f)) <= Each(log, Enters) && Inner(f) !! Each(log, Touches)
  }

  /** What menu_finalize finds: a list whose first entry need not have been propagated into. */
  ghost predicate Open(f: seq<Tree>, log: Log)
    requires f != []
  {
    Ahead(f[0].kids, log) && Known(f[1..], log)
  }

  /** The pairs of an entry and an entry in its list. */
  function Kids(f: seq<Tree>): set<(nat, nat)> {
    if f == [] then {} else Pairs(f[0].id, Roots(f[0].kids)) + Kids(f[0].kids) + Kids(f[1..])
  }

  function Pairs(m: nat, ids: seq<nat>): set<(nat, nat)> { set c | c in ids :: (m, c) }

  predicate Unprompted(es: seq<Entry>, m: nat) { m < |es| && !HasPromptText(es[m]) }

  /** The pairs in which the entry above has a prompt text. */
  function Prompted(es: seq<Entry>, ps: set<(nat, nat)>): set<(nat, nat)> { set p | p in ps && !Unprompted(es, p.0) }

  /** Between log0 and log1 the trees f have become the trees g: only their entries have been
      touched, and all but those in open are finalized; every list that is left has been
      looked at by its entry, and so were no others, but those that have moved up because
      their entry has no prompt text. */
  ghost predicate Took(log0: Log, log1: Log, orig: seq<Entry>, f: seq<Tree>, g: seq<Tree>, open: set<nat>) {
    && log0 <= log1 && Each(log1, Touches) <= Each(log0, Touches) + Ids(f) && Ids(f) <= Each(log1, Leaves) + open
    && Kids(g) <= Each(log1, Visits) && Prompted(orig, Each(log1, Visits)) <= Each(log0, Visits) + Kids(g)
  }

  /** Between log0 and log1 the roots of f have been propagated into. */
  ghost predicate Began(log0: Log, log1: Log, f: seq<Tree>) {
    && log0 <= log1 && Each(log1, Visits) == Each(log0, Visits)
    && Each(log1, Touches) <= Each(log0, Touches) + IdSet(Roots(f))
  }

  lemma {:induction false} InnerIn(f: seq<Tree>, x: nat)
    ensures x in Inner(f) <==> exists i :: 0 <= i < |f| && x in Pre(f[i].kids)
  {
    if f != [] {
      InnerIn(f[1..], x);
      if i :| 0 <= i < |f| && x in Pre(f[i].kids) { assert i > 0 ==> f[i] == f[1..][i - 1]; }
      if i :| 0 <= i < |f[1..]| && x in Pre(f[1..][i].kids) { assert f[1..][i] == f[i + 1]; }
    }
  }

  lemma InnerDistinct(f: seq<Tree>)
    requires Distinct(Pre(f))
    ensures Inner(f) <= Ids(f) && Inner(f) !! IdSet(Roots(f))
  {
    RootsDistinct(f);
    forall x | x in Inner(f) ensures x in Ids(f) && x !in Roots(f) {
      InnerIn(f, x);
      var i :| 0 <= i < |f| && x in Pre(f[i].kids);
      KidsInPre(f, i, x);
    }
  }

  lemma InnerFrom(f: seq<Tree>, k: nat)
    requires k <= |f|
    ensures Inner(f[k..]) <= Inner(f)
  {
    forall x | x in Inner(f[k..]) ensures x in Inner(f) {
      InnerIn(f[k..], x);
      var i :| 0 <= i < |f[k..]| && x in Pre(f[k..][i].kids);
      assert f[k..][i] == f[k + i];
      InnerIn(f, x);
    }
  }

  /** The last loop of menu_finalize(m) has looked at the entries ids, in order. */
  function VisitsOf(m: nat, ids: seq<nat>): Log { seq(|ids|, i requires 0 <= i < |ids| => Visiting(m, ids[i])) }

  lemma VisitsSnoc(m: nat, done: seq<Tree>, done': seq<Tree>, log0: Log, log1: Log, log2: Log)
    requires |done'| == |done| + 1 && done' == done + done'[|done|..]
    requires log1 == log0 + VisitsOf(m, Roots(done)) && log2 == log1 + [Visiting(m, done'[|done|].id)]
    ensures log2 == log0 + VisitsOf(m, Roots(done'))
  {
    assert VisitsOf(m, Roots(done')) == VisitsOf(m, Roots(done)) + [Visiting(m, done'[|done|].id)];
  }

  lemma {:induction false} VisitsEach(m: nat, ids: seq<nat>)
    ensures Each(VisitsOf(m, ids), Visits) == Pairs(m, ids) && Each(VisitsOf(m, ids), Touches) == {}
  {
    if ids != [] {
      var n := |ids| - 1;
      VisitsEach(m, ids[..n]);
      assert VisitsOf(m, ids)[..n] == VisitsOf(m, ids[..n]);
      assert ids == ids[..n] + [ids[n]];
    }
  }

  lemma {:induction false} KidsAppend(f: seq<Tree>, g: seq<Tree>)
    ensures Kids(f + g) == Kids(f) + Kids(g)
  {
    if f == [] {
      assert f + g == g;
    } else {
      assert (f + g)[0] == f[0] && (f + g)[1..] == f[1..] + g;
      KidsAppend(f[1..], g);
    }
  }

  /** Flattening a list moves entries up only from entries without a prompt text. */
  lemma {:induction false} KidsFlattened(es: seq<Entry>, f: seq<Tree>)
    ensures Kids(Flattened(es, f)) <= Kids(f) && Prompted(es, Kids(f)) <= Kids(Flattened(es, f))
    decreases |Pre(f)|
  {
    if f != [] {
      PreUnfold(f);
      PreAppend(f[0].kids, f[1..]);
      if f[0].kids != [] && f[0].id < |es| && !HasPromptText(es[f[0].id]) {
        var rest := Flattened(es, f[0].kids + f[1..]);
        KidsAppend(f[0].kids, f[1..]);
        KidsFlattened(es, f[0].kids + f[1..]);
        KidsAppend([Tree(f[0].id, [])], rest);
        assert Kids([Tree(f[0].id, [])]) == {};
      } else {
        KidsFlattened(es, f[1..]);
        KidsAppend([f[0]], Flattened(es, f[1..]));
        KidsAppend([f[0]], f[1..]);
        assert [f[0]] + f[1..] == f;
      }
    }
  }

  /** The first j entries of ids have been propagated into, in order. */
  ghost predicate NewsOf(news: Log, ids: seq<nat>, j: nat) {
    j == |news| <= |ids| && forall i :: 0 <= i < j ==> news[i].Entering? && news[i].x == ids[i]
  }

  lemma NewsOne(log0: Log, log1: Log, log2: Log, news: Log, ids: seq<nat>, j: nat, e: Entry) returns (news': Log)
    requires NewsOf(news, ids, j) && j < |ids| && log1 == log0 + news && log2 == log1 + [Entering(ids[j], e)]
    ensures NewsOf(news', ids, j + 1) && log2 == log0 + news'
  {
    news' := news + [Entering(ids[j], e)];
  }

  lemma PropagatedAll(pd: Option<Expr>, es: seq<Entry>, es': seq<Entry>, ids: seq<nat>, j: nat)
    requires PropagatedTo(pd, es, es', ids, j) && j == |ids|
    ensures |es| == |es'| && forall x :: x in ids ==> x < |es|
    ensures forall x :: x in ids ==> Propagated(pd, es[x], es'[x])
    ensures forall x :: 0 <= x < |es| && x !in ids ==> es'[x] == es[x]
  {
    assert ids[..j] == ids;
  }

  /** The entries as the propagation loop has them after the first j of ids. */
  ghost predicate PropagatedTo(pd: Option<Expr>, es: seq<Entry>, es': seq<Entry>, ids: seq<nat>, j: nat) {
    && |es| == |es'| && j <= |ids| && (forall i :: 0 <= i < |ids| ==> ids[i] < |es|)
    && (forall x :: x in ids[..j] ==> Propagated(pd, es[x], es'[x]))
    && (forall x :: 0 <= x < |es| && x !in ids[..j] ==> es'[x] == es[x])
  }

  lemma SiblingAt(ls: seq<Link>, f: seq<Tree>, head: int, par: int, j: nat)
    requires Seg(ls, f, head, NULL, par) && j <= |f|
    ensures j == 0 ==> head == NthOr(Roots(f), 0, NULL)
    ensures j < |f| ==> Roots(f)[j] < |ls| && ls[Roots(f)[j]].next == NthOr(Roots(f), j + 1, NULL)
    ensures forall i :: 0 <= i < |f| ==> Roots(f)[i] < |ls|
  {
    SegSiblings(ls, f, head, NULL, par);
  }

  lemma PropagatedNone(pd: Option<Expr>, es: seq<Entry>, ids: seq<nat>, ls: seq<Link>)
    requires |es| == |ls| && forall i :: 0 <= i < |ids| ==> ids[i] < |ls|
    ensures PropagatedTo(pd, es, es, ids, 0)
  {
  }

  lemma PropagatedOne(pd: Option<Expr>, es: seq<Entry>, es1: seq<Entry>, es2: seq<Entry>, ids: seq<nat>, j: nat)
    requires PropagatedTo(pd, es, es1, ids, j) && j < |ids| && Distinct(ids)
    requires |es2| == |es1| && es2 == es1[ids[j] := es2[ids[j]]] && Propagated(pd, es1[ids[j]], es2[ids[j]])
    ensures PropagatedTo(pd, es, es2, ids, j + 1)
  {
    assert ids[..j + 1] == ids[..j] + [ids[j]];
    assert ids[j] !in ids[..j];
  }

  lemma {:induction false} NewsEach(news: Log, ids: seq<nat>)
    requires NewsOf(news, ids, |news|)
    ensures Each(news, Visits) == {} && Each(news, Touches) == Each(news, Enters) == IdSet(ids[..|news|])
  {
    if news != [] {
      var n := |news| - 1;
      NewsEach(news[..n], ids);
      assert ids[..n + 1] == ids[..n] + [ids[n]];
    }
  }

  lemma NotYet(kids: seq<Tree>, log0: Log, news: Log, j: nat)
    requires Distinct(Pre(kids)) && Ahead(kids, log0) && j < |kids| && NewsOf(news, Roots(kids), j)
    ensures Roots(kids)[j] !in Each(log0 + news, Touches)
  {
    NewsEach(news, Roots(kids));
    EachAppend(log0, news, Touches);
    RootsDistinct(kids);
    RootsInPre(kids, j);
  }

  lemma NewsTouched(kids: seq<Tree>, log0: Log, news: Log)
    requires NewsOf(news, Roots(kids), |kids|)
    ensures Each(log0 + news, Touches) == Each(log0, Touches) + IdSet(Roots(kids))
  {
    NewsRoots(kids, news);
    EachAppend(log0, news, Touches);
  }

  lemma NewsEntered(kids: seq<Tree>, log0: Log, news: Log)
    requires NewsOf(news, Roots(kids), |kids|)
    ensures IdSet(Roots(kids)) <= Each(log0 + news, Enters)
  {
    NewsRoots(kids, news);
    EachAppend(log0, news, Enters);
  }

  lemma NewsRoots(kids: seq<Tree>, news: Log)
    requires NewsOf(news, Roots(kids), |kids|)
    ensures Each(news, Visits) == {} && Each(news, Touches) == Each(news, Enters) == IdSet(Roots(kids))
  {
    NewsEach(news, Roots(kids));
    assert Roots(kids)[..|news|] == Roots(kids);
  }

  lemma NewsVisits(kids: seq<Tree>, log0: Log, news: Log)
    requires NewsOf(news, Roots(kids), |kids|)
    ensures Each(log0 + news, Visits) == Each(log0, Visits)
  {
    NewsRoots(kids, news);
    EachAppend(log0, news, Visits);
    NoMore(Each(log0, Visits), Each(news, Visits));
  }

  lemma NoMore<T>(a: set<T>, b: set<T>)
    requires b == {}
    ensures a + b == a
  {
  }

  lemma LogLonger(log0: Log, news: Log)
    ensures log0 <= log0 + news
  {
  }

  lemma PropagatedKnown(kids: seq<Tree>, log0: Log, news: Log)
    requires Distinct(Pre(kids)) && Ahead(kids, log0) && NewsOf(news, Roots(kids), |kids|)
    ensures Known(kids, log0 + news) && Began(log0, log0 + news, kids)
  {
    NewsTouched(kids, log0, news);
    NewsEntered(kids, log0, news);
    NewsVisits(kids, log0, news);
    LogLonger(log0, news);
    InnerDistinct(kids);
  }

  lemma TookNothing(log: Log, orig: seq<Entry>)
    ensures Took(log, log, orig, [], [], {})
  {
  }

  lemma TookNone(log: Log, orig: seq<Entry>, f: seq<Tree>, m: nat)
    requires f != [] && f[0] == Tree(m, [])
    ensures Took(log, log, orig, f[..1], [], {m})
  {
    PreUnfold(f[..1]);
  }

  lemma TookJoin(log0: Log, log1: Log, log2: Log, orig: seq<Entry>, f: seq<Tree>, f': seq<Tree>, g: seq<Tree>,
                 g': seq<Tree>)
    requires Took(log0, log1, orig, f, g, {}) && Took(log1, log2, orig, f', g', {})
    ensures Took(log0, log2, orig, f + f', g + g', {})
  {
    PreAppend(f, f');
    EachGrows(log1, log2, Leaves);
    KidsAppend(g, g');
    EachGrows(log1, log2, Visits);
    PromptedJoin(orig, Each(log0, Visits), Each(log1, Visits), Each(log2, Visits), Kids(g), Kids(g'));
  }

  lemma PromptedJoin(orig: seq<Entry>, v0: set<(nat, nat)>, v1: set<(nat, nat)>, v2: set<(nat, nat)>,
                     a: set<(nat, nat)>, b: set<(nat, nat)>)
    requires Prompted(orig, v1) <= v0 + a && Prompted(orig, v2) <= v1 + b
    ensures Prompted(orig, v2) <= v0 + (a + b)
  {
    forall p | p in Prompted(orig, v2) ensures p in v0 + (a + b) {
      if p in v1 { assert p in Prompted(orig, v1); }
    }
  }

  lemma KnownHead(f: seq<Tree>, j: nat, log: Log)
    requires j < |f| && Known(f[j..], log)
    ensures Open(f[j..], log) && f[j].id in Each(log, Enters)
  {
    var g := f[j..];
    assert Roots(g)[0] == g[0].id == f[j].id;
    assert g[1..] == f[j + 1..];
    KnownRest(g, 1, log);
  }

  lemma KnownRest(f: seq<Tree>, k: nat, log: Log)
    requires Known(f, log) && k <= |f|
    ensures Known(f[k..], log)
  {
    var g := f[k..];
    InnerFrom(f, k);
    forall x | x in Roots(g) ensures x in Each(log, Enters) {
      var i :| 0 <= i < |g| && Roots(g)[i] == x;
      assert g[i] == f[k + i] && Roots(f)[k + i] == x;
    }
  }

  /** What is known of a list stays so while other trees are dealt with. */
  lemma KnownLater(f: seq<Tree>, log1: Log, log2: Log, orig: seq<Entry>, g: seq<Tree>, h: seq<Tree>)
    requires Known(f, log1) && Took(log1, log2, orig, g, h, {}) && Distinct(Pre(f)) && Ids(f) !! Ids(g)
    ensures Known(f, log2)
  {
    EachGrows(log1, log2, Enters);
    InnerDistinct(f);
  }

  lemma TookStep(f: seq<Tree>, j: nat, k: nat, j': nat, log0: Log, log1: Log, log2: Log, orig: seq<Entry>,
                 done: seq<Tree>, g: seq<Tree>)
    requires j + k <= |f| && j' == j + k && g != []
    requires Took(log0, log1, orig, f[..j], done, {}) && Took(log1, log2, orig, f[j..][..k], g[..1], {})
    ensures Took(log0, log2, orig, f[..j'], done + g[..1], {})
  {
    SuffixOfSuffix(f, j, k);
    TookJoin(log0, log1, log2, orig, f[..j], f[j..][..k], done, g[..1]);
  }

  lemma KnownStep(f: seq<Tree>, k: nat, log1: Log, log2: Log, orig: seq<Entry>, g: seq<Tree>)
    requires k <= |f| && Distinct(Pre(f)) && Known(f, log1) && Took(log1, log2, orig, f[..k], g, {})
    ensures Known(f[k..], log2)
  {
    SplitAt(f, k);
    KnownRest(f, k, log1);
    KnownLater(f[k..], log1, log2, orig, f[..k], g);
  }

  lemma TookBlock(log0: Log, log1: Log, log2: Log, orig: seq<Entry>, f: seq<Tree>, kids: seq<Tree>, m: nat)
    requires f != [] && f[0].id == m && Began(log0, log1, f[0].kids) && Took(log1, log2, orig, f[0].kids, kids, {})
    ensures Took(log0, log2, orig, f[..1], kids, {m})
  {
    PreUnfold(f[..1]);
    forall x | x in Roots(f[0].kids) ensures x in Pre(f[0].kids) {
      var i :| 0 <= i < |f[0].kids| && Roots(f[0].kids)[i] == x;
      RootsInPre(f[0].kids, i);
    }
  }

  lemma TookLeaf(log0: Log, log1: Log, log2: Log, orig: seq<Entry>, f: seq<Tree>, d: seq<Tree>, n: nat, k: nat, m: nat)
    requires f != [] && f[0] == Tree(m, []) && k == n + 1 <= |f|
    requires Took(log0, log1, orig, f[1..][..n], d, {}) && |log2| > 0 && log2 == log1 + [log2[|log2| - 1]]
    requires log2[|log2| - 1].Direct? && log2[|log2| - 1].x == m
    ensures Took(log0, log2, orig, f[..k], d, {m}) && m in Each(log2, Directs)
  {
    LogSnoc(log1, log2[|log2| - 1]);
    assert f[..k][1..] == f[1..][..n];
    PreUnfold(f[..k]);
  }

  lemma TookFlattened(log0: Log, log1: Log, log2: Log, orig: seq<Entry>, f: seq<Tree>, kids: seq<Tree>,
                      kids': seq<Tree>, m: nat, open: set<nat>)
    requires Took(log0, log1, orig, f, kids, open) && log2 == log1 + VisitsOf(m, Roots(kids'))
    requires kids' == Flattened(orig, kids)
    ensures Took(log0, log2, orig, f, [Tree(m, kids')], open)
  {
    var more := Pairs(m, Roots(kids'));
    VisitsLogged(log1, log2, m, Roots(kids'));
    KidsFlattened(orig, kids);
    KidsBelow(m, kids');
    PromptedMore(orig, Each(log0, Visits), Each(log1, Visits), more, Kids(kids), Kids(kids'));
  }

  lemma PromptedMore(orig: seq<Entry>, v0: set<(nat, nat)>, v1: set<(nat, nat)>, more: set<(nat, nat)>,
                     a: set<(nat, nat)>, b: set<(nat, nat)>)
    requires Prompted(orig, v1) <= v0 + a && Prompted(orig, a) <= b
    ensures Prompted(orig, v1 + more) <= v0 + (more + b)
  {
    forall p | p in Prompted(orig, v1 + more) ensures p in v0 + (more + b) {
      if p in v1 { assert p in Prompted(orig, v1); }
      if p in a { assert p in Prompted(orig, a); }
    }
  }

  lemma VisitsLogged(log1: Log, log2: Log, m: nat, ids: seq<nat>)
    requires log2 == log1 + VisitsOf(m, ids)
    ensures Each(log2, Visits) == Each(log1, Visits) + Pairs(m, ids)
    ensures Each(log2, Touches) == Each(log1, Touches) && Each(log1, Leaves) <= Each(log2, Leaves)
  {
    VisitsEach(m, ids);
    EachGrows(log1, log2, Leaves);
    EachAppend(log1, VisitsOf(m, ids), Visits);
    EachAppend(log1, VisitsOf(m, ids), Touches);
  }

  /** The entries in the list of m are all finalized. */
  lemma KidsTouched(log0: Log, log1: Log, orig: seq<Entry>, ls: seq<Link>, ls': seq<Link>, f: seq<Tree>, g: seq<Tree>,
                    k: nat, m: nat, par: int)
    requires Rebuilt(ls, ls', f, g, k, m, par) && Took(log0, log1, orig, f[..k], g[0].kids, {m}) && Distinct(Pre(f))
    ensures Ids(g[0].kids) <= Each(log1, Touches)
  {
    RebuiltHead(ls, ls', f, g, k, m, par);
    PreUnfold(g[..1]);
    LeavesTouch(log1);
    SplitAt(f, k);
    var q, kids := Pre(g[..1]), Pre(g[0].kids);
    assert q == [m] + kids by { assert g[..1][0] == g[0] && g[..1][1..] == []; }
    forall x | x in kids ensures x in Each(log1, Touches) {
      var i :| 0 <= i < |kids| && kids[i] == x;
      assert q[i + 1] == x && q[0] == m;
      assert x in Ids(f[..k]);
    }
  }

  lemma {:induction false} LeavesTouch(log: Log)
    ensures Each(log, Leaves) <= Each(log, Touches)
  {
    if log != [] { LeavesTouch(log[..|log| - 1]); }
  }

  lemma KidsBelow(m: nat, kids: seq<Tree>)
    ensures Kids([Tree(m, kids)]) == Pairs(m, Roots(kids)) + Kids(kids)
  {
    assert [Tree(m, kids)][1..] == [];
  }

  lemma TookLeave(log0: Log, log1: Log, log2: Log, orig: seq<Entry>, f: seq<Tree>, g: seq<Tree>, k: nat, m: nat)
    requires f != [] && f[0].id == m && 1 <= k <= |f| && g != [] && Took(log0, log1, orig, f[..k], g[..1], {m})
    requires |log2| > 0 && log2 == log1 + [log2[|log2| - 1]]
    requires log2[|log2| - 1].Leaving? && log2[|log2| - 1].x == m
    ensures Took(log0, log2, orig, f[..k], g[..1], {})
  {
    LogSnoc(log1, log2[|log2| - 1]);
    RootsInPre(f[..k], 0);
  }

  // ----- what the tables hold at the end -----

  /** Tests make a condition no greater, and when exact leave it. */
  lemma {:induction false} TestedBelow(e: Option<Expr>, e': Option<Expr>, exact: bool, v: Valuation)
    requires Tested(e, e', exact)
    ensures EvalOpt(e', v) <= EvalOpt(e, v) && (exact ==> e' == e)
    decreases if e'.Some? then Size(e'.value) else 0
  {
    if e' != e && e'.value.Bin? { TestedBelow(e, Some(e'.value.right), exact, v); }
  }

  /** The prompt of an entry is an alternative of its symbol's reverse dependency, up to m. */
  ghost predicate PromptIn(m: RevDeps, s: Symbol, c: Option<Expr>) {
    forall v: Valuation :: TriAnd(EvalOpt(c, v), v(SYM_MOD).tri) <= RevValue(m, s, v)
  }

  ghost predicate Mandatory(m: RevDeps, e: Entry, optional: set<Symbol>) {
    e.sym.Some? && e.sym.value !in optional && e.prompt.Some? ==> PromptIn(m, e.sym.value, PromptCond(e))
  }

  ghost predicate Grown(m: RevDeps, m': RevDeps) {
    forall s: Symbol, v: Valuation :: RevValue(m, s, v) <= RevValue(m', s, v)
  }

  lemma RegisteredGrown(m: RevDeps, m': RevDeps, e: Entry)
    requires Registered(m, e) && Grown(m, m')
    ensures Registered(m', e)
  {
    if e.sym.Some? {
      forall i | 0 <= i < |e.props| && e.props[i].kind == PSelect ensures SelectIn(m', e.sym.value, e.props[i]) {
        assert SelectIn(m, e.sym.value, e.props[i]);
        SelectGrown(m, m', e.sym.value, e.props[i]);
      }
    }
  }

  lemma SelectGrown(m: RevDeps, m': RevDeps, s: Symbol, p: Property)
    requires SelectIn(m, s, p) && Grown(m, m')
    ensures SelectIn(m', s, p)
  {
    forall v: Valuation ensures TriAnd(v(s).tri, EvalOpt(p.visible, v)) <= RevValue(m', p.target, v) {
      assert RevValue(m, p.target, v) <= RevValue(m', p.target, v);
    }
  }

  lemma MandatoryGrown(m: RevDeps, m': RevDeps, e: Entry, optional: set<Symbol>)
    requires Mandatory(m, e, optional) && Grown(m, m')
    ensures Mandatory(m', e, optional)
  {
    if e.sym.Some? && e.sym.value !in optional && e.prompt.Some? {
      forall v: Valuation
        ensures TriAnd(EvalOpt(PromptCond(e), v), v(SYM_MOD).tri) <= RevValue(m', e.sym.value, v)
      {
        assert TriAnd(EvalOpt(PromptCond(e), v), v(SYM_MOD).tri) <= RevValue(m, e.sym.value, v);
        assert RevValue(m, e.sym.value, v) <= RevValue(m', e.sym.value, v);
      }
    }
  }

  lemma SelectsGrow(m: RevDeps, e: Entry)
    ensures Grown(m, WithSelects(m, e, |e.props|)) && Registered(WithSelects(m, e, |e.props|), e)
  {
    var m' := WithSelects(m, e, |e.props|);
    forall s: Symbol, v: Valuation ensures RevValue(m, s, v) <= RevValue(m', s, v) {
      SelectsRegistered(m, e, |e.props|, 0, s, v);
    }
    if e.sym.Some? {
      forall i | 0 <= i < |e.props| && e.props[i].kind == PSelect ensures SelectIn(m', e.sym.value, e.props[i]) {
        forall v: Valuation
          ensures TriAnd(v(e.sym.value).tri, EvalOpt(e.props[i].visible, v)) <= RevValue(m', e.props[i].target, v)
        {
          SelectsRegistered(m, e, |e.props|, i, e.props[i].target, v);
        }
      }
    }
  }

  lemma MandatoryGrows(m: RevDeps, e: Entry, optional: set<Symbol>)
    ensures Grown(m, WithMandatory(m, e, optional)) && Mandatory(WithMandatory(m, e, optional), e, optional)
  {
    if e.sym.Some? && e.sym.value !in optional && e.prompt.Some? {
      forall v: Valuation
        ensures EvalOpt(AllocAnd(PromptCond(e), Some(Sym(SYM_MOD))), v) ==
                TriAnd(EvalOpt(PromptCond(e), v), v(SYM_MOD).tri)
      {
        AllocAndValue(PromptCond(e), Some(Sym(SYM_MOD)), v);
      }
    }
  }

  /** A narrowed entry asks for no more. */
  lemma RegisteredNarrowed(m: RevDeps, e: Entry, e': Entry, exact: bool)
    requires Registered(m, e) && Narrowed(e, e', exact)
    ensures Registered(m, e')
  {
    if e.sym.Some? {
      forall i | 0 <= i < |e'.props| && e'.props[i].kind == PSelect ensures SelectIn(m, e'.sym.value, e'.props[i]) {
        assert i < |e.props| && SelectIn(m, e.sym.value, e.props[i]);
        assert e'.props[i] == e.props[i].(visible := e'.props[i].visible);
        forall v: Valuation
          ensures TriAnd(v(e.sym.value).tri, EvalOpt(e'.props[i].visible, v)) <= RevValue(m, e.props[i].target, v)
        {
          TestedBelow(e.props[i].visible, e'.props[i].visible, exact, v);
        }
      }
    }
  }

  lemma MandatoryNarrowed(m: RevDeps, e: Entry, e': Entry, optional: set<Symbol>, exact: bool)
    requires Mandatory(m, e, optional) && Narrowed(e, e', exact)
    ensures Mandatory(m, e', optional)
  {
    if e.sym.Some? && e.sym.value !in optional && e.prompt.Some? {
      forall v: Valuation
        ensures TriAnd(EvalOpt(PromptCond(e'), v), v(SYM_MOD).tri) <= RevValue(m, e.sym.value, v)
      {
        TestedBelow(PromptCond(e), PromptCond(e'), exact, v);
      }
    }
  }

  /** Every select of an entry that has been propagated into, and every prompt of an entry
      that has been finalized, is an alternative of the reverse dependency. */
  lemma {:induction false} RevAtLeast(log: Log, es: seq<Entry>, home: seq<Link>, optional: set<Symbol>, exact: bool)
    requires Logged(log, es, home, exact)
    ensures AllRegistered(RevOf(log, optional), es, Each(log, Enters))
    ensures AllMandatory(RevOf(log, optional), es, optional, Each(log, Leaves))
  {
    if log != [] {
      var n := |log| - 1;
      RevAtLeast(log[..n], es, home, optional, exact);
      RevStep(log, es, home, optional, exact);
    }
  }

  ghost predicate AllMandatory(m: RevDeps, es: seq<Entry>, optional: set<Symbol>, ended: set<nat>) {
    forall x :: x in ended ==> x < |es| && Mandatory(m, es[x], optional)
  }

  lemma RevGrows(log: Log, optional: set<Symbol>)
    requires log != []
    ensures Grown(RevOf(log[..|log| - 1], optional), RevOf(log, optional))
  {
    var m, v := RevOf(log[..|log| - 1], optional), log[|log| - 1];
    if v.Entering? { SelectsGrow(m, v.e); }
    if v.Leaving? { MandatoryGrows(m, v.e, optional); }
  }

  lemma RevStep(log: Log, es: seq<Entry>, home: seq<Link>, optional: set<Symbol>, exact: bool)
    requires log != [] && Logged(log, es, home, exact)
    requires AllRegistered(RevOf(log[..|log| - 1], optional), es, Each(log[..|log| - 1], Enters))
    requires AllMandatory(RevOf(log[..|log| - 1], optional), es, optional, Each(log[..|log| - 1], Leaves))
    ensures AllRegistered(RevOf(log, optional), es, Each(log, Enters))
    ensures AllMandatory(RevOf(log, optional), es, optional, Each(log, Leaves))
  {
    var before, v := log[..|log| - 1], log[|log| - 1];
    var m, m' := RevOf(before, optional), RevOf(log, optional);
    RevGrows(log, optional);
    forall x: nat | x in Each(log, Enters) ensures x < |es| && Registered(m', es[x]) {
      if x in Each(before, Enters) {
        RegisteredGrown(m, m', es[x]);
      } else {
        SelectsGrow(m, v.e);
        RegisteredNarrowed(m', v.e, es[x], exact);
      }
    }
    forall x: nat | x in Each(log, Leaves) ensures x < |es| && Mandatory(m', es[x], optional) {
      if x in Each(before, Leaves) {
        MandatoryGrown(m, m', es[x], optional);
      } else {
        MandatoryGrows(m, v.e, optional);
        MandatoryNarrowed(m', v.e, es[x], optional, exact);
      }
    }
  }

  /** t is no more than the i-th property of entry x, a select of s, gives: its symbol,
      limited by the condition of the select, without tests put before that since. */
  ghost predicate FromSelect(es: seq<Entry>, x: nat, i: nat, s: Symbol, v: Valuation, t: Tristate, exact: bool) {
    && x < |es| && es[x].sym.Some? && i < |es[x].props| && es[x].props[i].kind == PSelect && es[x].props[i].target == s
    && exists c: Option<Expr> ::
         Tested(c, es[x].props[i].visible, exact) && t <= TriAnd(v(es[x].sym.value).tri, EvalOpt(c, v))
  }

  /** t is no more than the prompt of entry x gives to its symbol s, which is not optional. */
  ghost predicate FromPrompt(es: seq<Entry>, x: nat, s: Symbol, optional: set<Symbol>, v: Valuation, t: Tristate,
                             exact: bool) {
    && x < |es| && es[x].sym == Some(s) && s !in optional && es[x].prompt.Some?
    && exists c: Option<Expr> ::
         Tested(c, PromptCond(es[x]), exact) && t <= TriAnd(EvalOpt(c, v), v(SYM_MOD).tri)
  }

  /** Some select or prompt accounts for the value of the reverse dependency. */
  ghost predicate Accounted(es: seq<Entry>, s: Symbol, optional: set<Symbol>, v: Valuation, t: Tristate, exact: bool) {
    || t == NO
    || (exists x, i :: FromSelect(es, x, i, s, v, t, exact))
    || (exists x :: FromPrompt(es, x, s, optional, v, t, exact))
  }

  lemma {:induction false} SelectsAtMost(m: RevDeps, e: Entry, n: nat, s: Symbol, v: Valuation) returns (i: nat)
    requires n <= |e.props| && RevValue(WithSelects(m, e, n), s, v) != RevValue(m, s, v)
    ensures i < n && e.sym.Some? && e.props[i].kind == PSelect && e.props[i].target == s
    ensures RevValue(WithSelects(m, e, n), s, v) == TriAnd(v(e.sym.value).tri, EvalOpt(e.props[i].visible, v))
  {
    i := n - 1;
    AllocAndValue(Some(Sym(e.sym.value)), e.props[i].visible, v);
    if RevValue(WithSelects(m, e, n), s, v) == RevValue(WithSelects(m, e, n - 1), s, v) {
      i := SelectsAtMost(m, e, n - 1, s, v);
    }
  }

  /** Nothing else is. */
  lemma {:induction false} RevAtMost(log: Log, es: seq<Entry>, home: seq<Link>, optional: set<Symbol>, exact: bool,
                                     s: Symbol, v: Valuation)
    requires Logged(log, es, home, exact)
    ensures Accounted(es, s, optional, v, RevValue(RevOf(log, optional), s, v), exact)
  {
    if log != [] {
      var before, ev := log[..|log| - 1], log[|log| - 1];
      RevAtMost(before, es, home, optional, exact, s, v);
      var t := RevValue(RevOf(log, optional), s, v);
      if t != RevValue(RevOf(before, optional), s, v) {
        if ev.Entering? { NewSelect(before, ev, es, optional, exact, s, v, t); }
        else { NewPrompt(before, ev, es, optional, exact, s, v, t); }
      }
    }
  }

  lemma NewSelect(before: Log, ev: Event, es: seq<Entry>, optional: set<Symbol>, exact: bool, s: Symbol, v: Valuation,
                  t: Tristate)
    requires ev.Entering? && ev.x < |es| && Narrowed(ev.e, es[ev.x], exact)
    requires t == RevValue(WithSelects(RevOf(before, optional), ev.e, |ev.e.props|), s, v)
    requires t != RevValue(RevOf(before, optional), s, v)
    ensures Accounted(es, s, optional, v, t, exact)
  {
    var i := SelectsAtMost(RevOf(before, optional), ev.e, |ev.e.props|, s, v);
    assert es[ev.x].props[i] == ev.e.props[i].(visible := es[ev.x].props[i].visible);
    assert Tested(ev.e.props[i].visible, es[ev.x].props[i].visible, exact);
    assert FromSelect(es, ev.x, i, s, v, t, exact);
  }

  lemma NewPrompt(before: Log, ev: Event, es: seq<Entry>, optional: set<Symbol>, exact: bool, s: Symbol, v: Valuation,
                  t: Tristate)
    requires ev.Leaving? && ev.x < |es| && Narrowed(ev.e, es[ev.x], exact)
    requires t == RevValue(WithMandatory(RevOf(before, optional), ev.e, optional), s, v)
    requires t != RevValue(RevOf(before, optional), s, v)
    ensures Accounted(es, s, optional, v, t, exact)
  {
    AllocAndValue(PromptCond(ev.e), Some(Sym(SYM_MOD)), v);
    assert Tested(PromptCond(ev.e), PromptCond(es[ev.x]), exact);
    assert FromPrompt(es, ev.x, s, optional, v, t, exact);
  }

  /** The condition c of an entry is an alternative of the direct dependency of its symbol. */
  ghost predicate DirectIn(m: RevDeps, s: Symbol, c: Option<Expr>) {
    c.Some? ==> s in m && forall v: Valuation :: Eval(c.value, v) <= Eval(m[s], v)
  }

  /** ... that is, the condition of e without tests put before it since. */
  ghost predicate DirectTaken(m: RevDeps, e: Entry, exact: bool) {
    e.sym.Some? ==> exists c: Option<Expr> :: Tested(c, e.dep, exact) && DirectIn(m, e.sym.value, c)
  }

  /** t is no more than the condition of entry x, which never had a list, gives to its symbol s. */
  ghost predicate FromEntry(es: seq<Entry>, home: seq<Link>, x: nat, s: Symbol, v: Valuation, t: Tristate,
                            exact: bool) {
    && x < |es| && x < |home| && home[x].list == NULL && es[x].sym == Some(s)
    && exists c: Option<Expr> :: c.Some? && Tested(c, es[x].dep, exact) && t <= Eval(c.value, v)
  }

  lemma DirectGrown(m: RevDeps, m': RevDeps, e: Entry, exact: bool)
    requires DirectTaken(m, e, exact)
    requires forall s :: s in m ==> s in m' && forall v: Valuation :: Eval(m[s], v) <= Eval(m'[s], v)
    ensures DirectTaken(m', e, exact)
  {
    if e.sym.Some? {
      var c: Option<Expr> :| Tested(c, e.dep, exact) && DirectIn(m, e.sym.value, c);
      assert DirectIn(m', e.sym.value, c);
    }
  }

  lemma DirGrows(log: Log)
    requires log != []
    ensures var m, m' := DirOf(log[..|log| - 1]), DirOf(log);
            forall s :: s in m ==> s in m' && forall v: Valuation :: Eval(m[s], v) <= Eval(m'[s], v)
  {
  }

  /** The direct dependency of a symbol is the or of the conditions of its entries without
      a list, of those that have one. */
  lemma {:induction false} DirAtLeast(log: Log, es: seq<Entry>, home: seq<Link>, exact: bool, x: nat)
    requires Logged(log, es, home, exact) && x in Each(log, Directs)
    ensures x < |es| && DirectTaken(DirOf(log), es[x], exact)
  {
    var before, ev := log[..|log| - 1], log[|log| - 1];
    DirGrows(log);
    if x in Each(before, Directs) {
      DirAtLeast(before, es, home, exact, x);
      DirectGrown(DirOf(before), DirOf(log), es[x], exact);
    } else if ev.e.sym.Some? {
      assert DirectIn(DirOf(log), ev.e.sym.value, ev.e.dep);
      assert Tested(ev.e.dep, es[x].dep, exact);
    }
  }

  lemma {:induction false} DirAtMost(log: Log, es: seq<Entry>, home: seq<Link>, exact: bool, s: Symbol, v: Valuation)
      returns (x: nat)
    requires Logged(log, es, home, exact) && s in DirOf(log)
    ensures FromEntry(es, home, x, s, v, Eval(DirOf(log)[s], v), exact)
  {
    var before, ev := log[..|log| - 1], log[|log| - 1];
    if s in DirOf(before) && Eval(DirOf(before)[s], v) == Eval(DirOf(log)[s], v) {
      x := DirAtMost(before, es, home, exact, s, v);
    } else {
      x := ev.x;
      assert ev.e.dep.Some? && Eval(DirOf(log)[s], v) <= Eval(ev.e.dep.value, v);
      assert Tested(ev.e.dep, es[x].dep, exact);
    }
  }

  /** Whoever has been finalized, and never had a list, has had its condition taken. */
  lemma {:induction false} LeftDirect(log: Log, es: seq<Entry>, home: seq<Link>, exact: bool, x: nat)
    requires Logged(log, es, home, exact) && x in Each(log, Leaves)
    ensures x < |es| && x < |home| && (home[x].list == NULL && es[x].sym.Some? ==> x in Each(log, Directs))
  {
    var before := log[..|log| - 1];
    if x in Each(before, Leaves) { LeftDirect(before, es, home, exact, x); }
  }

  /** The symbol y has been seen in an entry in the list of an entry of the choice s. */
  predicate SeenIn(es: seq<Entry>, choices: set<Symbol>, p: (nat, nat), s: Symbol, y: Symbol) {
    Joins(es, choices, p.0, p.1) && es[p.0].sym == Some(s) && es[p.1].sym == Some(y)
  }

  /** The members of a choice are listed once, and are those whose choice it is. */
  ghost predicate ListsMembers(of: map<Symbol, Symbol>, l: map<Symbol, seq<Symbol>>) {
    && (forall s, y :: s in l && y in l[s] <==> y in of && of[y] == s)
    && (forall s, i, j :: s in l && 0 <= i < j < |l[s]| ==> l[s][i] != l[s][j])
  }

  lemma {:induction false} MembersListed(log: Log, es: seq<Entry>, choices: set<Symbol>)
    ensures ListsMembers(MemberOf(log, es, choices), MembersIn(log, es, choices))
  {
    if log != [] {
      MembersListed(log[..|log| - 1], es, choices);
      var ev := log[|log| - 1];
      if ev.Visiting? && Joins(es, choices, ev.m, ev.c) { MemberAdded(log, es, choices); }
    }
  }

  lemma MemberAdded(log: Log, es: seq<Entry>, choices: set<Symbol>)
    requires log != [] && log[|log| - 1].Visiting? && Joins(es, choices, log[|log| - 1].m, log[|log| - 1].c)
    requires ListsMembers(MemberOf(log[..|log| - 1], es, choices), MembersIn(log[..|log| - 1], es, choices))
    ensures ListsMembers(MemberOf(log, es, choices), MembersIn(log, es, choices))
  {
    var before, ev := log[..|log| - 1], log[|log| - 1];
    var of, l := MemberOf(before, es, choices), MembersIn(before, es, choices);
    if es[ev.c].sym.value !in of { AddedLists(of, l, es[ev.m].sym.value, es[ev.c].sym.value); }
  }

  lemma AddedLists(of: map<Symbol, Symbol>, l: map<Symbol, seq<Symbol>>, s: Symbol, y: Symbol)
    requires ListsMembers(of, l) && y !in of
    ensures ListsMembers(of[y := s], l[s := (if s in l then l[s] else []) + [y]])
  {
  }

  /** Every entry of a choice's list is a member of a choice. */
  lemma {:induction false} MembersSeen(log: Log, es: seq<Entry>, choices: set<Symbol>)
    ensures forall p :: p in Each(log, Visits) && Joins(es, choices, p.0, p.1) ==>
              es[p.1].sym.value in MemberOf(log, es, choices)
  {
    if log != [] { MembersSeen(log[..|log| - 1], es, choices); }
  }

  /** Members keep their choice and their place in its list. */
  lemma {:induction false} MembersStay(a: Log, b: Log, es: seq<Entry>, choices: set<Symbol>)
    requires a <= b
    ensures forall y :: y in MemberOf(a, es, choices) ==>
              y in MemberOf(b, es, choices) && MemberOf(b, es, choices)[y] == MemberOf(a, es, choices)[y]
    ensures forall s :: s in MembersIn(a, es, choices) ==>
              s in MembersIn(b, es, choices) && MembersIn(a, es, choices)[s] <= MembersIn(b, es, choices)[s]
  {
    if a == b {
      assert a == b;
    } else {
      assert a <= b[..|b| - 1];
      MembersStay(a, b[..|b| - 1], es, choices);
    }
  }

  /** basedep && visible for every property. */
  function Guarded(basedep: Option<Expr>, props: seq<Property>): (r: seq<Property>)
    ensures |r| == |props|
    ensures forall i :: 0 <= i < |props| ==> r[i] == props[i].(visible := AllocAnd(basedep, props[i].visible))
  {
    if props == [] then []
    else [props[0].(visible := AllocAnd(basedep, props[0].visible))] + Guarded(basedep, props[1..])
  }

  /** Propagation gates every child of m. */
  lemma {:induction false} PropagateGates(orig: seq<Entry>, cur: seq<Entry>, kids: seq<Tree>, pd: Option<Expr>,
                                          ok: Scope, up: Scope, exact: bool)
    requires |orig| == |cur| && Admits(orig, ok) && Inherits(pd, ok, up, exact)
    requires forall i :: 0 <= i < |kids| ==> kids[i].id < |cur| && Propagated(pd, orig[kids[i].id], cur[kids[i].id])
    requires forall i, x :: 0 <= i < |kids| && x in Pre(kids[i].kids) && x < |cur| ==> cur[x] == orig[x]
    ensures Entered(orig, cur, kids, ok, up, exact)
  {
    if kids != [] {
      assert forall i :: 0 <= i < |kids[1..]| ==> kids[1..][i] == kids[i + 1];
      assert forall v: Valuation | ok(v) :: WellFormed(v) && OrderableEntry(orig[kids[0].id], v) by {
        assert forall v: Valuation | ok(v) :: Evaluable(orig, v);
      }
      PropagatedGated(pd, orig[kids[0].id], cur[kids[0].id], ok, up, exact);
      PropagateGates(orig, cur, kids[1..], pd, ok, up, exact);
    }
  }

  // ----- why each entry is where it ends up -----

  /** The code decided to nest c under p; since then at most tests have been put before the
      conditions of the two entries (when exact, nothing has changed them). */
  ghost predicate Nested(es: seq<Entry>, p: nat, c: nat, exact: bool) {
    p < |es| && c < |es| && es[p].sym.Some? &&
    exists p0: Entry, c0: Entry ::
      Justified(p0, es[p].sym.value, c0) && Narrowed(p0, es[p], exact) && Narrowed(c0, es[c], exact)
  }

  /** What that says of the two finished entries: the condition of c mentions the symbol of
      p; and without the tests put before it since, it justifies the nesting in every
      valuation, which when exact is so for the two conditions as they are. */
  lemma NestedMeans(es: seq<Entry>, p: nat, c: nat, exact: bool) returns (pdep: Option<Expr>, dep: Option<Expr>)
    requires Nested(es, p, c, exact)
    ensures Cond(es[c]).Some? && ContainsSymbol(Cond(es[c]).value, es[p].sym.value)
    ensures Tested(pdep, PromptCond(es[p]), exact) && Tested(dep, Cond(es[c]), exact)
    ensures Nests(pdep, es[p].sym.value, dep)
    ensures forall v: Valuation | WellFormed(v) :: NestJustified(pdep, es[p].sym.value, dep.value, v)
    ensures exact ==> pdep == PromptCond(es[p]) && dep == Cond(es[c])
  {
    var s := es[p].sym.value;
    var p0: Entry, c0: Entry :|
      Justified(p0, s, c0) && Narrowed(p0, es[p], exact) && Narrowed(c0, es[c], exact);
    pdep, dep := PromptCond(p0), Cond(c0);
    TestedMentions(dep, Cond(es[c]), s, exact);
    forall v: Valuation | WellFormed(v) ensures NestJustified(pdep, s, dep.value, v) { NestSound(pdep, s, dep, v); }
  }

  /** Without tristate choices that is the decision on the two finished entries. */
  lemma NestedExact(es: seq<Entry>, p: nat, c: nat)
    ensures Nested(es, p, c, true) <==>
              p < |es| && c < |es| && es[p].sym.Some? && Nests(PromptCond(es[p]), es[p].sym.value, Cond(es[c]))
  {
    if p < |es| && c < |es| && es[p].sym.Some? && Nests(PromptCond(es[p]), es[p].sym.value, Cond(es[c])) {
      assert Justified(es[p], es[p].sym.value, es[c]);
      assert Narrowed(es[p], es[p], true) && Narrowed(es[c], es[c], true);
    }
    if Nested(es, p, c, true) { var pdep, dep := NestedMeans(es, p, c, true); }
  }

  /** c was below p from the start, or has been nested there. */
  ghost predicate Under(home: seq<Link>, es: seq<Entry>, p: nat, c: nat, exact: bool) {
    (c < |home| && home[c].parent == p) || Nested(es, p, c, exact)
  }

  /** A chain of entries, each below the one before; all but the last are in ids and have
      no prompt text, so that what was below them has moved up. */
  ghost predicate Chain(home: seq<Link>, es: seq<Entry>, m: nat, path: seq<nat>, ids: seq<nat>, exact: bool)
    decreases path
  {
    && path != [] && Under(home, es, m, path[0], exact) && path[0] in ids
    && (|path| > 1 ==>
          path[0] < |es| && !HasPromptText(es[path[0]]) && Chain(home, es, path[0], path[1..], ids, exact))
  }

  ghost predicate Linked(home: seq<Link>, es: seq<Entry>, m: nat, d: nat, ids: seq<nat>, exact: bool) {
    exists path :: Chain(home, es, m, path, ids, exact) && path[|path| - 1] == d
  }

  ghost predicate KidsLinked(home: seq<Link>, es: seq<Entry>, m: nat, f: seq<Tree>, ids: seq<nat>, exact: bool) {
    forall i :: 0 <= i < |f| ==> Linked(home, es, m, f[i].id, ids, exact)
  }

  /** Every entry of the forest but the roots is below its parent for one of these reasons. */
  ghost predicate Explained(home: seq<Link>, es: seq<Entry>, f: seq<Tree>, exact: bool) {
    f == [] ||
    (&& KidsLinked(home, es, f[0].id, f[0].kids, Pre(f[0].kids), exact)
     && Explained(home, es, f[0].kids, exact) && Explained(home, es, f[1..], exact))
  }

  /** The forest as it was before anything moved. */
  ghost predicate AtHome(home: seq<Link>, f: seq<Tree>, par: int) {
    f == [] ||
    (&& f[0].id < |home| && home[f[0].id].parent == par && (home[f[0].id].list == NULL <==> f[0].kids == [])
     && AtHome(home, f[0].kids, f[0].id) && AtHome(home, f[1..], par))
  }

  /** The entries in ids are narrowed at most. */
  ghost predicate NarrowedIn(es: seq<Entry>, es': seq<Entry>, ids: seq<nat>, exact: bool) {
    |es| == |es'| && forall x :: x in ids && x < |es| ==> Narrowed(es[x], es'[x], exact)
  }

  lemma SameText(e: Entry, e': Entry, exact: bool)
    requires Narrowed(e, e', exact)
    ensures HasPromptText(e') == HasPromptText(e)
  {
  }

  lemma NestedKept(es: seq<Entry>, es': seq<Entry>, p: nat, c: nat, exact: bool)
    requires Nested(es, p, c, exact) && |es'| == |es|
    requires Narrowed(es[p], es'[p], exact) && Narrowed(es[c], es'[c], exact)
    ensures Nested(es', p, c, exact)
  {
    var p0: Entry, c0: Entry :|
      Justified(p0, es[p].sym.value, c0) && Narrowed(p0, es[p], exact) && Narrowed(c0, es[c], exact);
    NarrowedTrans(p0, es[p], es'[p], exact);
    NarrowedTrans(c0, es[c], es'[c], exact);
    assert Justified(p0, es'[p].sym.value, c0);
  }

  lemma {:induction false} ChainKept(home: seq<Link>, es: seq<Entry>, es': seq<Entry>, m: nat, path: seq<nat>,
                                     ids: seq<nat>, exact: bool)
    requires Chain(home, es, m, path, ids, exact) && NarrowedIn(es, es', ids, exact)
    requires m < |es| ==> Narrowed(es[m], es'[m], exact)
    ensures Chain(home, es', m, path, ids, exact)
    decreases |path|
  {
    var c := path[0];
    if Nested(es, m, c, exact) { NestedKept(es, es', m, c, exact); }
    if |path| > 1 {
      SameText(es[c], es'[c], exact);
      ChainKept(home, es, es', c, path[1..], ids, exact);
    }
  }

  lemma LinkedKept(home: seq<Link>, es: seq<Entry>, es': seq<Entry>, m: nat, d: nat, ids: seq<nat>, exact: bool)
    requires Linked(home, es, m, d, ids, exact) && NarrowedIn(es, es', ids, exact)
    requires m < |es| ==> Narrowed(es[m], es'[m], exact)
    ensures Linked(home, es', m, d, ids, exact)
  {
    var path :| Chain(home, es, m, path, ids, exact) && path[|path| - 1] == d;
    ChainKept(home, es, es', m, path, ids, exact);
  }

  lemma {:induction false} ExplainedKept(home: seq<Link>, es: seq<Entry>, es': seq<Entry>, f: seq<Tree>, exact: bool)
    requires Explained(home, es, f, exact) && NarrowedIn(es, es', Pre(f), exact)
    ensures Explained(home, es', f, exact)
  {
    if f != [] {
      PreUnfold(f);
      forall i | 0 <= i < |f[0].kids| ensures Linked(home, es', f[0].id, f[0].kids[i].id, Pre(f[0].kids), exact) {
        LinkedKept(home, es, es', f[0].id, f[0].kids[i].id, Pre(f[0].kids), exact);
      }
      ExplainedKept(home, es, es', f[0].kids, exact);
      ExplainedKept(home, es, es', f[1..], exact);
    }
  }

  lemma {:induction false} ExplainedAppend(home: seq<Link>, es: seq<Entry>, f: seq<Tree>, g: seq<Tree>, exact: bool)
    requires Explained(home, es, f, exact) && Explained(home, es, g, exact)
    ensures Explained(home, es, f + g, exact)
  {
    if f == [] {
      assert f + g == g;
    } else {
      assert (f + g)[0] == f[0] && (f + g)[1..] == f[1..] + g;
      ExplainedAppend(home, es, f[1..], g, exact);
    }
  }

  /** Two chains after one another. */
  lemma {:induction false} ChainJoin(home: seq<Link>, es: seq<Entry>, m: nat, p: seq<nat>, q: seq<nat>, ids: seq<nat>,
                                     inner: seq<nat>, exact: bool)
    requires Chain(home, es, m, p, ids, exact) && Chain(home, es, p[|p| - 1], q, inner, exact)
    requires p[|p| - 1] < |es| && !HasPromptText(es[p[|p| - 1]]) && forall x :: x in inner ==> x in ids
    ensures Chain(home, es, m, p + q, ids, exact)
    decreases |p|
  {
    if |p| == 1 {
      ChainWiden(home, es, p[0], q, inner, ids, exact);
      assert (p + q)[1..] == q;
    } else {
      assert (p + q)[1..] == p[1..] + q;
      ChainJoin(home, es, p[0], p[1..], q, ids, inner, exact);
    }
  }

  lemma {:induction false} ChainWiden(home: seq<Link>, es: seq<Entry>, m: nat, q: seq<nat>, inner: seq<nat>,
                                      ids: seq<nat>, exact: bool)
    requires Chain(home, es, m, q, inner, exact) && forall x :: x in inner ==> x in ids
    ensures Chain(home, es, m, q, ids, exact)
    decreases |q|
  {
    if |q| > 1 { ChainWiden(home, es, q[0], q[1..], inner, ids, exact); }
  }

  lemma LinkedJoin(home: seq<Link>, es: seq<Entry>, m: nat, c: nat, d: nat, ids: seq<nat>, inner: seq<nat>, exact: bool)
    requires Linked(home, es, m, c, ids, exact) && Linked(home, es, c, d, inner, exact)
    requires c < |es| && !HasPromptText(es[c]) && forall x :: x in inner ==> x in ids
    ensures Linked(home, es, m, d, ids, exact)
  {
    var p :| Chain(home, es, m, p, ids, exact) && p[|p| - 1] == c;
    var q :| Chain(home, es, c, q, inner, exact) && q[|q| - 1] == d;
    ChainJoin(home, es, m, p, q, ids, inner, exact);
    assert (p + q)[|p + q| - 1] == d;
  }

  /** Flattening the list below m keeps every entry explained. */
  lemma {:induction false} FlattenedExplained(home: seq<Link>, orig: seq<Entry>, es: seq<Entry>, m: nat, f: seq<Tree>,
                                              ids: seq<nat>, exact: bool)
    requires SameTexts(orig, es) && Explained(home, es, f, exact) && KidsLinked(home, es, m, f, ids, exact)
    requires forall x :: x in Pre(f) ==> x in ids
    ensures var g := Flattened(orig, f); Explained(home, es, g, exact) && KidsLinked(home, es, m, g, ids, exact)
    decreases |Pre(f)|
  {
    if f != [] {
      PreRest(f);
      PreUnfold(f);
      if f[0].kids != [] && f[0].id < |orig| && !HasPromptText(orig[f[0].id]) {
        HoistedLinked(home, es, m, f, ids, exact);
        ExplainedAppend(home, es, f[0].kids, f[1..], exact);
        FlattenedExplained(home, orig, es, m, f[0].kids + f[1..], ids, exact);
        ExplainedCons(home, es, m, Tree(f[0].id, []), Flattened(orig, f[0].kids + f[1..]), ids, exact);
      } else {
        FlattenedExplained(home, orig, es, m, f[1..], ids, exact);
        ExplainedCons(home, es, m, f[0], Flattened(orig, f[1..]), ids, exact);
      }
    }
  }

  lemma HoistedLinked(home: seq<Link>, es: seq<Entry>, m: nat, f: seq<Tree>, ids: seq<nat>, exact: bool)
    requires f != [] && Explained(home, es, f, exact) && KidsLinked(home, es, m, f, ids, exact)
    requires f[0].id < |es| && !HasPromptText(es[f[0].id]) && forall x :: x in Pre(f) ==> x in ids
    ensures KidsLinked(home, es, m, f[0].kids + f[1..], ids, exact)
    ensures forall x :: x in Pre(f[0].kids + f[1..]) ==> x in ids
  {
    HoistedIn(f, ids);
    forall i | 0 <= i < |f[0].kids| ensures Linked(home, es, m, f[0].kids[i].id, ids, exact) {
      HoistedKid(home, es, m, f, i, ids, exact);
    }
    forall i | 0 <= i < |f[1..]| ensures Linked(home, es, m, f[1..][i].id, ids, exact) {
      assert f[1..][i] == f[i + 1];
    }
    LinkedAppend(home, es, m, f[0].kids, f[1..], ids, exact);
  }

  lemma HoistedIn(f: seq<Tree>, ids: seq<nat>)
    requires f != [] && forall x :: x in Pre(f) ==> x in ids
    ensures forall x :: x in Pre(f[0].kids + f[1..]) ==> x in ids
    ensures forall x :: x in Pre(f[0].kids) ==> x in ids
  {
    PreUnfold(f);
    PreAppend(f[0].kids, f[1..]);
  }

  lemma LinkedAppend(home: seq<Link>, es: seq<Entry>, m: nat, f: seq<Tree>, g: seq<Tree>, ids: seq<nat>, exact: bool)
    requires KidsLinked(home, es, m, f, ids, exact) && KidsLinked(home, es, m, g, ids, exact)
    ensures KidsLinked(home, es, m, f + g, ids, exact)
  {
  }

  /** An entry that leaves f[0] is linked by way of it. */
  lemma HoistedKid(home: seq<Link>, es: seq<Entry>, m: nat, f: seq<Tree>, i: nat, ids: seq<nat>, exact: bool)
    requires f != [] && i < |f[0].kids| && Linked(home, es, m, f[0].id, ids, exact)
    requires KidsLinked(home, es, f[0].id, f[0].kids, Pre(f[0].kids), exact)
    requires f[0].id < |es| && !HasPromptText(es[f[0].id]) && forall x :: x in Pre(f[0].kids) ==> x in ids
    ensures Linked(home, es, m, f[0].kids[i].id, ids, exact)
  {
    LinkedJoin(home, es, m, f[0].id, f[0].kids[i].id, ids, Pre(f[0].kids), exact);
  }

  lemma ExplainedCons(home: seq<Link>, es: seq<Entry>, m: nat, x: Tree, g: seq<Tree>, ids: seq<nat>, exact: bool)
    requires Explained(home, es, g, exact) && KidsLinked(home, es, m, g, ids, exact)
    requires Linked(home, es, m, x.id, ids, exact)
    requires KidsLinked(home, es, x.id, x.kids, Pre(x.kids), exact) && Explained(home, es, x.kids, exact)
    ensures Explained(home, es, [x] + g, exact) && KidsLinked(home, es, m, [x] + g, ids, exact)
  {
    assert ([x] + g)[0] == x && ([x] + g)[1..] == g;
  }

  /** Entries that are where they were, or have just been nested, are linked directly. */
  lemma LinkedDirectly(home: seq<Link>, es: seq<Entry>, m: nat, d: nat, ids: seq<nat>, exact: bool)
    requires Under(home, es, m, d, exact) && d in ids
    ensures Linked(home, es, m, d, ids, exact)
  {
    assert Chain(home, es, m, [d], ids, exact);
  }

  lemma {:induction false} NestedLinked(home: seq<Link>, es: seq<Entry>, m: nat, s: Symbol, d: seq<Tree>, exact: bool)
    requires m < |es| && es[m].sym == Some(s) && AllNested(es, m, s, d)
    ensures forall i :: 0 <= i < |d| ==> Under(home, es, m, d[i].id, exact)
  {
    if d != [] {
      assert Narrowed(es[m], es[m], exact) && Narrowed(es[d[0].id], es[d[0].id], exact);
      NestedLinked(home, es, m, s, d[1..], exact);
      forall i | 0 <= i < |d| ensures Under(home, es, m, d[i].id, exact) {
        if i > 0 { assert d[i] == d[1..][i - 1]; }
      }
    }
  }

  lemma NothingBelow(home: seq<Link>, es: seq<Entry>, f: seq<Tree>, m: nat, exact: bool)
    requires f != [] && f[0] == Tree(m, [])
    ensures Explained(home, es, f[..1], exact)
  {
    var t := f[..1];
    assert t[0] == f[0] && t[1..] == [];
  }

  lemma RootLinked(home: seq<Link>, es: seq<Entry>, m: nat, f: seq<Tree>, exact: bool)
    requires forall i :: 0 <= i < |f| ==> Under(home, es, m, f[i].id, exact)
    requires Explained(home, es, f, exact)
    ensures Explained(home, es, [Tree(m, f)], exact)
  {
    forall i | 0 <= i < |f| ensures Linked(home, es, m, f[i].id, Pre(f), exact) {
      RootsInPre(f, i);
      LinkedDirectly(home, es, m, f[i].id, Pre(f), exact);
    }
    var t := [Tree(m, f)];
    assert t[0].kids == f && t[1..] == [];
  }

  lemma SameNarrowed(es: seq<Entry>, es': seq<Entry>, ids: seq<nat>, exact: bool)
    requires |es| == |es'| && forall x :: x in ids && x < |es| ==> es'[x] == es[x]
    ensures NarrowedIn(es, es', ids, exact)
  {
  }

  lemma SweepDone(ls: seq<Link>, kids: seq<Tree>, j: nat, m: nat)
    requires j <= |kids| && Seg(ls, kids[j..], NULL, NULL, m)
    ensures j == |kids| && kids[..j] == kids
  {
    SegNull(ls, kids[j..], NULL, m);
  }

  /** One more finished tree behind those already explained. */
  lemma ExplainedStep(home: seq<Link>, es: seq<Entry>, es': seq<Entry>, f: seq<Tree>, j: nat, k: nat, done: seq<Tree>,
                      g: seq<Tree>, exact: bool)
    requires j + k <= |f| && Distinct(Pre(f)) && Pre(done) == Pre(f[..j]) && |es'| == |es|
    requires forall x :: 0 <= x < |es| && x !in Pre(f[j..][..k]) ==> es'[x] == es[x]
    requires Explained(home, es, done, exact) && g != [] && Explained(home, es', g[..1], exact)
    ensures Explained(home, es', done + g[..1], exact)
  {
    SplitAt(f, j);
    PartsIn(f[j..], k);
    SameNarrowed(es, es', Pre(done), exact);
    ExplainedKept(home, es, es', done, exact);
    ExplainedAppend(home, es', done, g[..1], exact);
  }

  /** The list below m, narrowed and flattened. */
  lemma FlatListExplained(home: seq<Link>, orig: seq<Entry>, es: seq<Entry>, es': seq<Entry>, m: nat, g: seq<Tree>,
                          kids: seq<Tree>, exact: bool)
    requires g != [] && g[0].id == m && Explained(home, es, g[..1], exact) && SameTexts(orig, es')
    requires |es'| == |es| && NarrowedUpTo(es, es', |es|, Pre(g[0].kids), exact)
    requires kids == Flattened(orig, g[0].kids) && Pre(kids) == Pre(g[0].kids)
    ensures Explained(home, es', [Tree(m, kids)], exact)
  {
    var f := g[0].kids;
    assert g[..1][0] == g[0] && g[..1][1..] == [];
    forall x | x in Pre(g[..1]) && x < |es| ensures Narrowed(es[x], es'[x], exact) {
      NarrowedAt(es, es', |es|, x, Pre(f), exact);
    }
    ExplainedKept(home, es, es', g[..1], exact);
    FlattenedExplained(home, orig, es', m, f, Pre(f), exact);
    var t := [Tree(m, kids)];
    assert t[0].kids == kids && t[1..] == [];
  }

  /** A list whose roots have not moved. */
  ghost predicate RootsHome(home: seq<Link>, m: int, f: seq<Tree>) {
    forall i :: 0 <= i < |f| ==> f[i].id < |home| && home[f[i].id].parent == m
  }

  lemma {:induction false} AtHomeFrom(home: seq<Link>, f: seq<Tree>, par: int, j: nat)
    requires AtHome(home, f, par) && j <= |f|
    ensures AtHome(home, f[j..], par) && RootsHome(home, par, f)
  {
    if f != [] {
      if j == 0 { assert f[0..] == f; } else { assert f[j..] == f[1..][j - 1..]; }
      AtHomeFrom(home, f[1..], par, if j == 0 then 0 else j - 1);
      forall i | 0 <= i < |f| ensures f[i].id < |home| && home[f[i].id].parent == par {
        if i > 0 { assert f[i] == f[1..][i - 1]; }
      }
    }
  }

  lemma RootsHomeStep(home: seq<Link>, m: int, done: seq<Tree>, g: seq<Tree>, f: seq<Tree>, j: nat)
    requires RootsHome(home, m, done) && RootsHome(home, m, f) && j < |f| && g != [] && g[0].id == f[j].id
    ensures RootsHome(home, m, done + g[..1])
  {
    var r := done + g[..1];
    forall i | 0 <= i < |r| ensures r[i].id < |home| && home[r[i].id].parent == m {
      if i == |done| { assert r[i] == g[0]; } else { assert r[i] == done[i]; }
    }
  }

  lemma {:induction false} SegHome(ls: seq<Link>, f: seq<Tree>, head: int, tail: int, par: int)
    requires Seg(ls, f, head, tail, par)
    ensures AtHome(ls, f, par)
  {
    if f != [] {
      SegNull(ls, f[0].kids, ls[head].list, head);
      SegHome(ls, f[0].kids, ls[head].list, NULL, head);
      SegHome(ls, f[1..], ls[head].next, tail, par);
    }
  }

  // ----- progress of a whole run on the entries -----

  /** Of the original sibling list f, the first j trees are finished and the rest is entered. */
  ghost predicate Progress(orig: seq<Entry>, es: seq<Entry>, es': seq<Entry>, f: seq<Tree>, j: nat,
                           ok: Scope, up: Scope, choices: set<Symbol>, exact: bool) {
    && |orig| == |es| == |es'| && j <= |f| && Distinct(Pre(f))
    && AllGated(orig, es', f[..j], ok, up, choices, exact) && Entered(orig, es', f[j..], ok, up, exact)
    && (forall x :: 0 <= x < |es| && x !in Pre(f[..j]) ==> es'[x] == es[x])
  }

  /** The effect of menu_finalize on m on the entries of the trees it went through. */
  ghost predicate Finished(orig: seq<Entry>, es: seq<Entry>, es': seq<Entry>, f: seq<Tree>, k: nat, m: nat,
                           ok: Scope, up: Scope, choices: set<Symbol>, exact: bool) {
    && |orig| == |es| == |es'| && m < |es| && k <= |f|
    && AllGated(orig, es', f[..k], ok, up, choices, exact)
    && (forall x :: 0 <= x < |es| && x !in Pre(f[..k]) ==> es'[x] == es[x])
    && es'[m] == es[m]
  }

  lemma ProgressStep(orig: seq<Entry>, es: seq<Entry>, es1: seq<Entry>, es2: seq<Entry>, f: seq<Tree>, j: nat, k: nat,
                     m: nat, ok: Scope, up: Scope, choices: set<Symbol>, exact: bool)
    requires Progress(orig, es, es1, f, j, ok, up, choices, exact)
    requires Finished(orig, es1, es2, f[j..], k, m, ok, up, choices, exact)
    ensures j + k <= |f| && Progress(orig, es, es2, f, j + k, ok, up, choices, exact)
  {
    assert forall x :: 0 <= x < |es| && x !in Pre(f[..j + k]) ==> es2[x] == es[x] by { SpanPre(f, j, k); }
    SplitAt(f, j);
    SplitAt(f[j..], k);
    SuffixOfSuffix(f, j, k);
    assert AllGated(orig, es2, f[..j], ok, up, choices, exact) by {
      AllGatedFrame(orig, es1, es2, f[..j], ok, up, choices, exact);
    }
    AllGatedAppend(orig, es2, f[..j], f[j..][..k], ok, up, choices, exact);
    EnteredFrame(orig, es1, es2, f[j..], k, ok, up, exact);
  }

  /** One more tree, and whatever it absorbed, has been put below m. */
  lemma NestedStep(orig: seq<Entry>, es: seq<Entry>, es1: seq<Entry>, es2: seq<Entry>, ls: seq<Link>, ls1: seq<Link>,
                   m: nat, s: Symbol, cur: nat, r: seq<Tree>, i: nat, d: seq<Tree>, last: int, par: int,
                   g: seq<Tree>, k: nat, ok: Scope, up: Scope, choices: set<Symbol>, exact: bool)
    requires Absorbing(ls, ls1, m, cur, r, i, d, last, par) && |es1| == |ls|
    requires Finished(orig, es1, es2, r[i..], k, cur, ok, up, choices, exact)
    requires AllNested(es1, m, s, d) && cur < |es1| && Justified(es1[m], s, es1[cur]) && g != [] && g[0].id == cur
    ensures es2[m] == es1[m] && AllNested(es2, m, s, d + g[..1])
  {
    NotInParts(r, i, k, m);
    SplitAt(r, i);
    forall x | x in Pre(d) && x < |es1| ensures es2[x] == es1[x] {
      if x in Pre(r[i..][..k]) { PartsIn(r[i..], k); }
    }
    NestedAppend(es1, es2, m, s, d, g[..1]);
  }

  /** What is known of the list d taken so far, after one more tree. */
  lemma TakenStep(orig: seq<Entry>, home: seq<Link>, es1: seq<Entry>, es2: seq<Entry>, ls: seq<Link>, ls1: seq<Link>,
                  m: nat, cur: nat, r: seq<Tree>, i: nat, i': nat, d: seq<Tree>, d': seq<Tree>, last: int, par: int,
                  g: seq<Tree>, k: nat, log0: Log, log1: Log, log2: Log,
                  ok: Scope, up: Scope, choices: set<Symbol>, exact: bool)
    requires Absorbing(ls, ls1, m, cur, r, i, d, last, par) && i < |r| && r[i].id == cur
    requires Finished(orig, es1, es2, r[i..], k, cur, ok, up, choices, exact)
    requires Took(log0, log1, orig, r[..i], d, {}) && g != [] && Took(log1, log2, orig, r[i..][..k], g[..1], {})
    requires KidsDeep(orig, d) && DeepFlat(orig, g[0].kids) && i' == i + k && d' == d + g[..1]
    requires Explained(home, es1, d, exact) && Explained(home, es2, g[..1], exact)
    ensures i' <= |r| && Took(log0, log2, orig, r[..i'], d', {})
    ensures KidsDeep(orig, d') && Explained(home, es2, d', exact)
  {
    TookStep(r, i, k, i', log0, log1, log2, orig, d, g);
    DeepStep(orig, d, g, d');
    ExplainedStep(home, es1, es2, r, i, k, d, g, exact);
  }

  /** One turn of the loop that takes siblings: es1, ls1 and log1 are before, es2 and log2
      after the recursive call. */
  lemma AbsorbedOne(orig: seq<Entry>, home: seq<Link>, es: seq<Entry>, es1: seq<Entry>, es2: seq<Entry>,
                    ls: seq<Link>, ls1: seq<Link>, m: nat, s: Symbol, cur: nat, r: seq<Tree>, i: nat, i': nat,
                    d: seq<Tree>, d': seq<Tree>, last: int, par: int, g: seq<Tree>, k: nat,
                    log0: Log, log1: Log, log2: Log, ok: Scope, up: Scope, choices: set<Symbol>, exact: bool)
    requires Absorbing(ls, ls1, m, cur, r, i, d, last, par) && g != [] && g[0].id == cur
    requires i' == i + k && d' == d + g[..1]
    requires Progress(orig, es, es1, r, i, ok, up, choices, exact) && |es1| == |ls| && es1[m] == es[m]
    requires i < |r| && r[i].id == cur && Finished(orig, es1, es2, r[i..], k, cur, ok, up, choices, exact)
    requires AllNested(es1, m, s, d) && Justified(es1[m], s, es1[cur])
    requires Took(log0, log1, orig, r[..i], d, {}) && Took(log1, log2, orig, r[i..][..k], g[..1], {})
    requires KidsDeep(orig, d) && DeepFlat(orig, g[0].kids)
    requires Explained(home, es1, d, exact) && Explained(home, es2, g[..1], exact)
    ensures Progress(orig, es, es2, r, i', ok, up, choices, exact)
    ensures es2[m] == es[m] && AllNested(es2, m, s, d')
    ensures i' <= |r| && Took(log0, log2, orig, r[..i'], d', {})
    ensures KidsDeep(orig, d') && Explained(home, es2, d', exact)
  {
    ProgressOne(orig, es, es1, es2, r, i, i', k, cur, ok, up, choices, exact);
    NestedStep(orig, es, es1, es2, ls, ls1, m, s, cur, r, i, d, last, par, g, k, ok, up, choices, exact);
    TakenStep(orig, home, es1, es2, ls, ls1, m, cur, r, i, i', d, d', last, par, g, k, log0, log1, log2,
              ok, up, choices, exact);
  }

  /** The links with a new parent for one entry. */
  function Moved(ls: seq<Link>, x: nat, m: nat): seq<Link>
    requires x < |ls|
  {
    ls[x := ls[x].(parent := m)]
  }

  lemma AbsorbedLinks(ls: seq<Link>, ls1: seq<Link>, ls2: seq<Link>, ls3: seq<Link>, m: nat, cur: nat, r: seq<Tree>,
                      i: nat, i': nat, d: seq<Tree>, d': seq<Tree>, last: int, par: int, g: seq<Tree>, k: nat)
    requires Absorbing(ls, ls1, m, cur, r, i, d, last, par) && Rebuilt(ls1, ls2, r[i..], g, k, cur, par)
    requires cur < |ls2| && ls3 == ls2[cur := ls2[cur].(parent := m)] && i' == i + k && d' == d + g[..1]
    ensures Absorbing(ls, ls3, m, ls3[cur].next, r, i', d', cur, par) && |Pre(r[i'..])| < |Pre(r[i..])|
  {
    AbsorbStep(ls, ls1, ls2, m, cur, r, i, d, last, par, g, k);
  }

  lemma ProgressOne(orig: seq<Entry>, es: seq<Entry>, es1: seq<Entry>, es2: seq<Entry>, f: seq<Tree>,
                    j: nat, j': nat, k: nat, m: nat, ok: Scope, up: Scope, choices: set<Symbol>, exact: bool)
    requires Progress(orig, es, es1, f, j, ok, up, choices, exact)
    requires Finished(orig, es1, es2, f[j..], k, m, ok, up, choices, exact) && j' == j + k
    ensures Progress(orig, es, es2, f, j', ok, up, choices, exact)
  {
    ProgressStep(orig, es, es1, es2, f, j, k, m, ok, up, choices, exact);
  }

  /** The same for the loop over the entries below m. */
  lemma SweptOne(orig: seq<Entry>, es: seq<Entry>, es1: seq<Entry>, es2: seq<Entry>,
                 ls: seq<Link>, ls1: seq<Link>, ls2: seq<Link>, m: nat, cur: nat, kids: seq<Tree>, j: nat, j': nat,
                 done: seq<Tree>, done': seq<Tree>, g: seq<Tree>, k: nat,
                 ok: Scope, gate: Scope, choices: set<Symbol>, exact: bool)
    requires Sweeping(ls, ls1, m, cur, kids, j, done) && Rebuilt(ls1, ls2, kids[j..], g, k, cur, m)
    requires Progress(orig, es, es1, kids, j, ok, gate, choices, exact)
    requires Finished(orig, es1, es2, kids[j..], k, cur, ok, gate, choices, exact)
    requires j' == j + k && done' == done + g[..1]
    ensures cur < |ls2| && Sweeping(ls, ls2, m, ls2[cur].next, kids, j', done')
    ensures Progress(orig, es, es2, kids, j', ok, gate, choices, exact) && |Pre(kids[j'..])| < |Pre(kids[j..])|
  {
    SweptLinks(ls, ls1, ls2, m, cur, kids, j, j', done, done', g, k);
    ProgressOne(orig, es, es1, es2, kids, j, j', k, cur, ok, gate, choices, exact);
  }

  lemma SweptLinks(ls: seq<Link>, ls1: seq<Link>, ls2: seq<Link>, m: nat, cur: nat, kids: seq<Tree>, j: nat, j': nat,
                   done: seq<Tree>, done': seq<Tree>, g: seq<Tree>, k: nat)
    requires Sweeping(ls, ls1, m, cur, kids, j, done) && Rebuilt(ls1, ls2, kids[j..], g, k, cur, m)
    requires j' == j + k && done' == done + g[..1]
    ensures cur < |ls2| && Sweeping(ls, ls2, m, ls2[cur].next, kids, j', done') && |Pre(kids[j'..])| < |Pre(kids[j..])|
  {
    SweepStep(ls, ls1, ls2, m, cur, kids, j, done, g, k);
  }

  lemma {:induction false} NestedAppend(es1: seq<Entry>, es2: seq<Entry>, m: nat, s: Symbol, d: seq<Tree>, g: seq<Tree>)
    requires m < |es1| == |es2| && es2[m] == es1[m] && AllNested(es1, m, s, d) && AllNested(es2, m, s, g)
    requires forall x :: x in Pre(d) && x < |es1| ==> es2[x] == es1[x]
    ensures AllNested(es2, m, s, d + g)
  {
    if d == [] {
      assert d + g == g;
    } else {
      PreUnfold(d);
      NestedAppend(es1, es2, m, s, d[1..], g);
      assert es2[d[0].id] == es1[d[0].id];
      NestedCons(es2, m, s, d[0], d[1..] + g);
      ConsAppend(d, g);
    }
  }

  lemma ConsAppend(d: seq<Tree>, g: seq<Tree>)
    requires d != []
    ensures d + g == [d[0]] + (d[1..] + g)
  {
  }

  lemma NestedCons(es: seq<Entry>, m: nat, s: Symbol, x: Tree, d: seq<Tree>)
    requires m < |es| && x.id < |es| && Justified(es[m], s, es[x.id]) && AllNested(es, m, s, d)
    ensures AllNested(es, m, s, [x] + d)
  {
    assert ([x] + d)[0] == x && ([x] + d)[1..] == d;
  }

  lemma LeafUntouched(ls: seq<Link>, f: seq<Tree>, m: nat, par: int, orig: seq<Entry>, es: seq<Entry>,
                      ok: Scope, up: Scope, choices: set<Symbol>, exact: bool)
    requires f != [] && Seg(ls, f, m, NULL, par) && m < |ls| && ls[m].list == NULL && |orig| == |es|
    requires Entered(orig, es, f, ok, up, exact)
    ensures Rebuilt(ls, ls, f, f, 1, m, par) && Finished(orig, es, es, f, 1, m, ok, up, choices, exact)
  {
    SegNull(ls, f[0].kids, NULL, m);
    var h := f[..1];
    assert h[0] == f[0] && h[1..] == [] && f[0] == Tree(m, []);
    assert AllGated(orig, es, h, ok, up, choices, exact) by {
      assert AllGated(orig, es, h[0].kids, ok, GateOf(orig[m], up, choices), choices, exact);
      assert AllGated(orig, es, h[1..], ok, up, choices, exact);
    }
  }

  lemma KidPropagated(orig: seq<Entry>, es: seq<Entry>, es': seq<Entry>, kids: seq<Tree>, pd: Option<Expr>, i: nat)
    requires |orig| == |es| == |es'| && i < |kids|
    requires forall x :: x in Roots(kids) ==> x < |es| && Propagated(pd, es[x], es'[x])
    requires forall x :: x in Pre(kids) && x < |orig| ==> es[x] == orig[x]
    requires forall x :: x in Roots(kids) ==> x in Pre(kids)
    ensures kids[i].id < |es'| && Propagated(pd, orig[kids[i].id], es'[kids[i].id])
  {
    assert Roots(kids)[i] == kids[i].id && Roots(kids)[i] in Roots(kids);
  }

  lemma KidUntouched(orig: seq<Entry>, es: seq<Entry>, es': seq<Entry>, kids: seq<Tree>, i: nat, x: nat)
    requires |orig| == |es| == |es'| && i < |kids| && x in Pre(kids[i].kids) && x < |es'|
    requires forall y :: 0 <= y < |es| && y !in Roots(kids) ==> es'[y] == es[y]
    requires forall y :: y in Pre(kids) && y < |orig| ==> es[y] == orig[y]
    requires forall i, y :: 0 <= i < |kids| && y in Pre(kids[i].kids) ==> y !in Roots(kids)
    ensures es'[x] == orig[x]
  {
    KidsInPre(kids, i, x);
  }

  /** Propagation from m gates the children of m. */
  lemma PropagateEntered(orig: seq<Entry>, es: seq<Entry>, es': seq<Entry>, f: seq<Tree>, m: nat,
                         ok: Scope, up: Scope, choices: set<Symbol>, exact: bool)
    requires |orig| == |es| == |es'| && f != [] && f[0].id == m && Distinct(Pre(f))
    requires Admits(orig, ok) && Entered(orig, es, f, ok, up, exact)
    requires forall x :: x in Roots(f[0].kids) ==> x < |es| && Propagated(ParentDep(es[m], choices), es[x], es'[x])
    requires forall x :: 0 <= x < |es| && x !in Roots(f[0].kids) ==> es'[x] == es[x]
    ensures Entered(orig, es', f[0].kids, ok, GateOf(orig[m], up, choices), exact)
  {
    var kids, pd := f[0].kids, ParentDep(es[m], choices);
    PreUnfold(f);
    RootsDistinct(kids);
    ParentDepGate(orig[m], es[m], ok, up, choices, exact);
    forall i | 0 <= i < |kids| ensures kids[i].id < |es'| && Propagated(pd, orig[kids[i].id], es'[kids[i].id]) {
      KidPropagated(orig, es, es', kids, pd, i);
    }
    forall i, x | 0 <= i < |kids| && x in Pre(kids[i].kids) && x < |es'| ensures es'[x] == orig[x] {
      KidUntouched(orig, es, es', kids, i, x);
    }
    PropagateGates(orig, es', kids, pd, ok, GateOf(orig[m], up, choices), exact);
  }

  lemma BlockFinished(orig: seq<Entry>, es: seq<Entry>, es1: seq<Entry>, es2: seq<Entry>, f: seq<Tree>, k: nat, m: nat,
                      ok: Scope, up: Scope, choices: set<Symbol>, exact: bool)
    requires |orig| == |es| == |es1| && f != [] && f[0].id == m && Distinct(Pre(f)) && k == 1
    requires Entered(orig, es, f, ok, up, exact)
    requires forall x :: 0 <= x < |es| && x !in Roots(f[0].kids) ==> es1[x] == es[x]
    requires Progress(orig, es1, es2, f[0].kids, |f[0].kids|, ok, GateOf(orig[m], up, choices), choices, exact)
    ensures Finished(orig, es, es2, f, k, m, ok, up, choices, exact)
  {
    var kids := f[0].kids;
    assert kids[..|kids|] == kids;
    PreUnfold(f);
    RootsDistinct(kids);
    PreUnfold(f[..1]);
    assert es2[m] == es[m];
    assert f[..1][0] == f[0] && f[..1][1..] == [];
  }

  lemma LeafRebuilt(ls: seq<Link>, ls': seq<Link>, f: seq<Tree>, g: seq<Tree>, d: seq<Tree>, n: nat, k: nat,
                    m: nat, par: int)
    requires f != [] && f == [Tree(m, [])] + f[1..] && n < |f| && g == [Tree(m, d)] + f[1..][n..] && k == n + 1
    requires Rebuilt(ls, ls', [Tree(m, [])] + f[1..], [Tree(m, d)] + f[1..][n..], n + 1, m, par)
    ensures Rebuilt(ls, ls', f, g, k, m, par)
  {
  }

  lemma LeafFinished(orig: seq<Entry>, es: seq<Entry>, es': seq<Entry>, f: seq<Tree>, n: nat, k: nat, m: nat,
                     ok: Scope, up: Scope, choices: set<Symbol>, exact: bool)
    requires k == n + 1
    requires f != [] && f[0] == Tree(m, []) && |orig| == |es| && Entered(orig, es, f, ok, up, exact)
    requires Progress(orig, es, es', f[1..], n, ok, up, choices, exact) && es'[m] == es[m] && Distinct(Pre(f))
    ensures Finished(orig, es, es', f, k, m, ok, up, choices, exact)
  {
    var h := f[..n + 1];
    assert h[0] == f[0] && h[1..] == f[1..][..n] && h[0].kids == [];
    assert AllGated(orig, es', h[1..], ok, up, choices, exact);
    assert Gated(orig[m], es'[m], ok, up, exact);
    PreUnfold(h);
    assert forall x :: 0 <= x < |es| && x !in Pre(h) ==> x !in Pre(f[1..][..n]) && es'[x] == es[x];
    assert AllGated(orig, es', h, ok, up, choices, exact);
    assert m < |es| && n + 1 <= |f|;
  }

  lemma FlattenFinished(orig: seq<Entry>, es: seq<Entry>, es1: seq<Entry>, es2: seq<Entry>, f: seq<Tree>, g: seq<Tree>,
                        k: nat, m: nat, ok: Scope, up: Scope, choices: set<Symbol>, exact: bool)
    requires Finished(orig, es, es1, f, k, m, ok, up, choices, exact) && g != [] && |es2| == |es1|
    requires NarrowedUpTo(es1, es2, |es1|, Pre(g[0].kids), exact) && m !in Pre(g[0].kids)
    requires forall x :: x in Pre(g[0].kids) ==> x in Pre(f[..k])
    ensures Finished(orig, es, es2, f, k, m, ok, up, choices, exact)
  {
    AllGatedNarrow(orig, es1, es2, f[..k], Pre(g[0].kids), ok, up, choices, exact);
    forall x | 0 <= x < |es| && (x !in Pre(f[..k]) || x == m) ensures es2[x] == es1[x] {
      NarrowedAt(es1, es2, |es1|, x, Pre(g[0].kids), exact);
    }
  }

  lemma {:induction false} DeepSame(es: seq<Entry>, es': seq<Entry>, f: seq<Tree>)
    requires SameTexts(es, es') && DeepFlat(es, f)
    ensures DeepFlat(es', f)
  {
    if f != [] {
      DeepSame(es, es', f[0].kids);
      DeepSame(es, es', f[1..]);
    }
  }

  /** The valuations in which all original conditions can be evaluated, if the root
      carries none. */
  ghost function RootScope(orig: seq<Entry>): Scope
    requires orig != []
  {
    (v: Valuation) => Evaluable(orig, v) && NormalEntry(orig[0]) && orig[0].dep == None
  }

  function Everywhere(): Scope { (v: Valuation) => true }

  /** The reverse dependencies of the finished entries below root: all their selects and, for
      symbols that are not optional, their prompts up to m; and nothing else. */
  ghost predicate RevRight(m: RevDeps, es: seq<Entry>, optional: set<Symbol>, root: Tree, exact: bool) {
    && (forall x :: x in Pre(root.kids) ==> x < |es| && Registered(m, es[x]))
    && (forall x :: x in Pre([root]) ==> x < |es| && Mandatory(m, es[x], optional))
    && forall s: Symbol, v: Valuation :: Accounted(es, s, optional, v, RevValue(m, s, v), exact)
  }

  /** The direct dependencies: the conditions of the entries without a list, of those that
      have one; and nothing else. */
  ghost predicate DirRight(m: RevDeps, es: seq<Entry>, home: seq<Link>, root: Tree, exact: bool) {
    && (forall x :: x in Pre([root]) ==>
          x < |es| && x < |home| && (home[x].list == NULL ==> DirectTaken(m, es[x], exact)))
    && forall s: Symbol, v: Valuation :: s in m ==> DirAccounted(m, es, home, s, v, exact)
  }

  ghost predicate DirAccounted(m: RevDeps, es: seq<Entry>, home: seq<Link>, s: Symbol, v: Valuation, exact: bool)
    requires s in m
  {
    exists x :: FromEntry(es, home, x, s, v, Eval(m[s], v), exact)
  }

  /** The members of the choices: the entries in the list of a choice in the finished forest,
      apart from those that have moved up from a choice without a prompt text. */
  ghost predicate MembersRight(of: map<Symbol, Symbol>, l: map<Symbol, seq<Symbol>>, es: seq<Entry>,
                               choices: set<Symbol>, root: Tree) {
    && ListsMembers(of, l)
    && (forall p :: p in Kids([root]) && Joins(es, choices, p.0, p.1) ==> es[p.1].sym.value in of)
    && forall y :: y in of ==>
         exists p: (nat, nat) :: && SeenIn(es, choices, p, of[y], y) && Fenced(es[p.1], of[y])
                     && (p in Kids([root]) || Unprompted(es, p.0))
  }

  lemma RevFinished(log: Log, es: seq<Entry>, home: seq<Link>, optional: set<Symbol>, root: Tree, exact: bool)
    requires Logged(log, es, home, exact) && Ids([root]) <= Each(log, Leaves) && AtHome(home, [root], NULL)
    ensures RevRight(RevOf(log, optional), es, optional, root, exact)
  {
    RevAtLeast(log, es, home, optional, exact);
    PreUnfold([root]);
    forall x | x in Pre(root.kids) ensures x in Each(log, Enters) {
      LeftEntered(log, es, home, exact, x);
      HasParent(home, root.kids, root.id, x);
    }
    forall s: Symbol, v: Valuation ensures Accounted(es, s, optional, v, RevValue(RevOf(log, optional), s, v), exact) {
      RevAtMost(log, es, home, optional, exact, s, v);
    }
  }

  lemma {:induction false} LeftEntered(log: Log, es: seq<Entry>, home: seq<Link>, exact: bool, x: nat)
    requires Logged(log, es, home, exact) && x in Each(log, Leaves)
    ensures x < |home| && (x in Each(log, Enters) || home[x].parent == NULL)
  {
    var before := log[..|log| - 1];
    if x in Each(before, Leaves) { LeftEntered(before, es, home, exact, x); }
  }

  lemma {:induction false} HasParent(home: seq<Link>, f: seq<Tree>, par: int, x: nat)
    requires AtHome(home, f, par) && par != NULL && x in Pre(f)
    ensures x < |home| && home[x].parent != NULL
  {
    PreUnfold(f);
    if x != f[0].id {
      if x in Pre(f[0].kids) { HasParent(home, f[0].kids, f[0].id, x); } else { HasParent(home, f[1..], par, x); }
    }
  }

  lemma DirFinished(log: Log, es: seq<Entry>, home: seq<Link>, root: Tree, exact: bool)
    requires Logged(log, es, home, exact) && Ids([root]) <= Each(log, Leaves)
    ensures DirRight(DirOf(log), es, home, root, exact)
  {
    forall x | x in Pre([root])
      ensures x < |es| && x < |home| && (home[x].list == NULL ==> DirectTaken(DirOf(log), es[x], exact))
    {
      LeftDirect(log, es, home, exact, x);
      if home[x].list == NULL && es[x].sym.Some? { DirAtLeast(log, es, home, exact, x); }
    }
    forall s: Symbol, v: Valuation | s in DirOf(log) ensures DirAccounted(DirOf(log), es, home, s, v, exact) {
      var x := DirAtMost(log, es, home, exact, s, v);
    }
  }

  lemma MembersFinished(log: Log, orig: seq<Entry>, es: seq<Entry>, choices: set<Symbol>, root: Tree, root': Tree)
    requires Took([], log, orig, [root], [root'], {}) && SameTexts(orig, es) && Fences(log, orig, es, choices)
    ensures MembersRight(MemberOf(log, orig, choices), MembersIn(log, orig, choices), es, choices, root')
  {
    var of := MemberOf(log, orig, choices);
    MembersListed(log, orig, choices);
    MembersSeen(log, orig, choices);
    forall y | y in of
      ensures exists p: (nat, nat) :: && SeenIn(es, choices, p, of[y], y) && Fenced(es[p.1], of[y])
                          && (p in Kids([root']) || Unprompted(es, p.0))
    {
      var p := MemberFenced(log, orig, es, choices, y);
      assert p !in Kids([root']) ==> p !in Prompted(orig, Each(log, Visits));
    }
    forall p | p in Kids([root']) && Joins(es, choices, p.0, p.1) ensures es[p.1].sym.value in of {
      assert p in Each(log, Visits) && Joins(orig, choices, p.0, p.1);
    }
  }

  /** The entry that made y a member. */
  lemma {:induction false} MemberFenced(log: Log, orig: seq<Entry>, es: seq<Entry>, choices: set<Symbol>, y: Symbol)
      returns (p: (nat, nat))
    requires Fences(log, orig, es, choices) && SameTexts(orig, es) && y in MemberOf(log, orig, choices)
    ensures p in Each(log, Visits) && SeenIn(es, choices, p, MemberOf(log, orig, choices)[y], y)
    ensures Fenced(es[p.1], MemberOf(log, orig, choices)[y])
  {
    var before, v := log[..|log| - 1], log[|log| - 1];
    if y in MemberOf(before, orig, choices) {
      p := MemberFenced(before, orig, es, choices, y);
    } else {
      p := (v.m, v.c);
    }
  }

  /** The whole run: menu_finalize(&rootmenu). Whatever the conditions are, the entries
      stay the same in the same pre-order, links and parents are consistent, no entry
      without a prompt text keeps a block, and the dependencies and the members of choices
      are those of the finished entries. In every valuation in which the original
      conditions can be evaluated the finished entries are gated by what enclosed them
      originally. */
  method FinalizeRoot(t: MenuTable, ghost root: Tree) returns (ghost root': Tree)
    requires |t.links| == |t.entries| && Seg(t.links, [root], 0, NULL, NULL) && Distinct(Pre([root]))
    requires t.Untouched() && t.home == t.links
    modifies t, t.rw
    ensures |t.links| == |t.entries| == old(|t.entries|) && t.entries != []
    ensures Seg(t.links, [root'], 0, NULL, NULL) && Pre([root']) == Pre([root])
    ensures DeepFlat(t.entries, root'.kids) && Explained(t.home, t.entries, [root'], t.Exact())
    ensures RevRight(t.revDep, t.entries, t.optional, root, t.Exact())
    ensures DirRight(t.dirDep, t.entries, t.home, root, t.Exact())
    ensures MembersRight(t.memberOf, t.members, t.entries, t.choices, root')
    ensures AllGated(old(t.entries), t.entries, [root], RootScope(old(t.entries)), Everywhere(), t.choices, t.Exact())
  {
    ghost var orig := t.entries;
    SegHome(t.links, [root], 0, NULL, NULL);
    root' := RunRoot(t, root);
    RevFinished(t.log, t.entries, t.home, t.optional, root, t.Exact());
    DirFinished(t.log, t.entries, t.home, root, t.Exact());
    MembersFinished(t.log, orig, t.entries, t.choices, root, root');
  }

  method RunRoot(t: MenuTable, ghost root: Tree) returns (ghost root': Tree)
    requires |t.links| == |t.entries| && Seg(t.links, [root], 0, NULL, NULL) && Distinct(Pre([root]))
    requires t.Untouched() && t.home == t.links && AtHome(t.home, [root], NULL)
    modifies t, t.rw
    ensures |t.links| == |t.entries| == old(|t.entries|) && t.entries != []
    ensures Seg(t.links, [root'], 0, NULL, NULL) && Pre([root']) == Pre([root])
    ensures DeepFlat(t.entries, root'.kids) && Explained(t.home, t.entries, [root'], t.Exact())
    ensures t.Kept(old(t.entries)) && Took([], t.log, old(t.entries), [root], [root'], {})
    ensures AllGated(old(t.entries), t.entries, [root], RootScope(old(t.entries)), Everywhere(), t.choices, t.Exact())
  {
    ghost var was, orig := t.links, t.entries;
    RootReady(orig, root, t.Exact());
    ghost var g, k := t.Finalize(0, [root], NULL, orig, RootScope(orig), Everywhere());
    root' := g[0];
    RootFinished(was, t.links, orig, t.entries, root, g, k, t.choices, t.Exact());
    RootTaken(t.log, orig, root, g, k);
    DeepSame(orig, t.entries, root'.kids);
  }

  lemma RootReady(orig: seq<Entry>, root: Tree, exact: bool)
    requires orig != [] && root.id == 0
    ensures Admits(orig, RootScope(orig)) && Entered(orig, orig, [root], RootScope(orig), Everywhere(), exact)
    ensures Open([root], [])
  {
    assert [root][1..] == [];
    RootEntered(orig, root, exact);
  }

  lemma RootTaken(log: Log, orig: seq<Entry>, root: Tree, g: seq<Tree>, k: nat)
    requires k == 1 && |g| == 1 && Took([], log, orig, [root][..k], g[..1], {})
    ensures Took([], log, orig, [root], [g[0]], {}) && g[..1] == [g[0]]
  {
    assert [root][..k] == [root] && g[..1] == [g[0]];
  }

  lemma RootFinished(ls: seq<Link>, ls': seq<Link>, orig: seq<Entry>, es: seq<Entry>, root: Tree, g: seq<Tree>, k: nat,
                     choices: set<Symbol>, exact: bool)
    requires orig != [] && Rebuilt(ls, ls', [root], g, k, 0, NULL) && |es| == |orig|
    requires Finished(orig, orig, es, [root], k, 0, RootScope(orig), Everywhere(), choices, exact)
    ensures k == 1 && g == [g[0]] && Seg(ls', [g[0]], 0, NULL, NULL) && Pre([g[0]]) == Pre([root])
    ensures AllGated(orig, es, [root], RootScope(orig), Everywhere(), choices, exact)
  {
    assert [root][..k] == [root] && [root][k..] == [] && g == [g[0]];
  }

  lemma RootEntered(orig: seq<Entry>, root: Tree, exact: bool)
    requires orig != [] && root.id == 0
    ensures Admits(orig, RootScope(orig)) && Entered(orig, orig, [root], RootScope(orig), Everywhere(), exact)
  {
    assert Gated(orig[0], orig[0], RootScope(orig), Everywhere(), exact);
    assert [root][1..] == [];
  }
}
