/** Choices (scripts/kconfig/symbol.c): sym_calc_value, sym_calc_visibility,
    sym_calc_choice and sym_choice_default for a choice symbol and its members. The
    conditions of the members' prompts read the choice, and calculating the choice
    calculates the members' visibility again. */
module Choices {
  import opened Exprs
  import opened ExprNormalisation
  import opened SymbolValues

  /** A choice with its members. All other symbols have the fixed values env; for the
      choice env holds the value it had before, which nothing but its own conditions
      can still see. */
  datatype Group = Group(
    choice: Symbol, choiceDef: SymDef, choiceUser: map<Symbol, Tristate>,
    members: seq<Symbol>, prompts: map<Symbol, seq<Expr>>, memberDefaults: map<Symbol, seq<(Option<Expr>, Expr)>>,
    memberUser: map<Symbol, Tristate>,
    defaults: seq<(Option<Expr>, Symbol)>, pick: Option<Symbol>,
    modules: Tristate, env: Valuation)

  ghost predicate GroupOk(g: Group) {
    && TwoOrThreeValued(g.choice.typ) && g.choice !in g.members
    && (forall i, j :: 0 <= i < j < |g.members| ==> g.members[i] != g.members[j])
    && (forall m :: m in g.members ==> TwoOrThreeValued(m.typ) && m in g.prompts && m in g.memberDefaults)
    && (forall m :: m in g.prompts ==> forall e :: e in g.prompts[m] ==> ContainsSymbol(e, g.choice))
    && (forall d :: d in g.defaults ==> d.1 in g.members)
    && (g.pick.Some? ==> g.pick.value in g.members)
  }

  /** The valuation while the choice has the value ct. */
  function WithChoice(g: Group, ct: Tristate): Valuation {
    (s: Symbol) => if s == g.choice then SymVal(ct, StringValue(ct, g.modules), KString) else g.env(s)
  }

  /** sym_calc_value takes no default for a choice: those pick a member. */
  function ChoiceTable(g: Group): Table {
    Table(map[g.choice := g.choiceDef.(defaults := [])], g.choiceUser, g.modules, g.env)
  }

  /** The choice's value before a member is chosen. */
  function OwnTri(g: Group): Tristate { Compute(ChoiceTable(g), g.choice, g.env) }

  /** or over a member's prompts; a prompt of a tristate member that is m does not
      count while the choice is y. */
  function MemberPrompts(m: Symbol, ps: seq<Expr>, ct: Tristate, v: Valuation): Tristate {
    if ps == [] then NO
    else
      var tri := Eval(ps[|ps| - 1], v);
      var shown := if m.typ == TTristate && tri == MOD && ct == YES then NO else tri;
      TriOr(MemberPrompts(m, ps[..|ps| - 1], ct, v), shown)
  }

  /** sym_calc_visibility of a member while the choice has the value ct. */
  function MemberVisible(g: Group, m: Symbol, ct: Tristate): Tristate
    requires m in g.prompts
  {
    var tri := MemberPrompts(m, g.prompts[m], ct, WithChoice(g, ct));
    if tri == MOD && (m.typ != TTristate || g.modules == NO) then YES else tri
  }

  predicate Shown(g: Group, m: Symbol) { m in g.prompts && MemberVisible(g, m, YES) != NO }

  /** The first of ds that applies, the choice being y, and whose member is visible. */
  function FirstShownDefault(g: Group, ds: seq<(Option<Expr>, Symbol)>): Option<Symbol> {
    if ds == [] then None
    else if EvalOpt(ds[0].0, WithChoice(g, YES)) != NO && Shown(g, ds[0].1) then Some(ds[0].1)
    else FirstShownDefault(g, ds[1..])
  }

  function FirstShown(g: Group, ms: seq<Symbol>): Option<Symbol> {
    if ms == [] then None else if Shown(g, ms[0]) then Some(ms[0]) else FirstShown(g, ms[1..])
  }

  /** sym_calc_choice: the user's pick if visible, otherwise the first visible
      default, otherwise the first visible member. */
  function Chosen(g: Group): Option<Symbol> {
    if g.pick.Some? && Shown(g, g.pick.value) then g.pick
    else if FirstShownDefault(g, g.defaults).Some? then FirstShownDefault(g, g.defaults)
    else FirstShown(g, g.members)
  }

  /** The choice's final value: n if it was y but no member can be chosen. */
  function ChoiceTri(g: Group): Tristate { if OwnTri(g) == YES && Chosen(g) == None then NO else OwnTri(g) }

  function ChoiceVal(g: Group): Option<Symbol> { if OwnTri(g) == YES then Chosen(g) else None }

  /** m where it is a value of the member, otherwise y. */
  function Typed(g: Group, m: Symbol, tri: Tristate): Tristate {
    if tri == MOD && EffectiveType(m, g.modules) == TBoolean then YES else tri
  }

  /** What a member's own defaults make of it while the choice has the value ct. Their
      conditions, like those of the prompts, read the choice. */
  function OwnDefault(g: Group, m: Symbol, ct: Tristate): Tristate
    requires m in g.memberDefaults
  {
    DefaultTri(g.memberDefaults[m], WithChoice(g, ct))
  }

  /** A member that is not fully visible goes by its user value or its defaults. */
  function UnchosenTri(g: Group, m: Symbol, visible: Tristate, ct: Tristate): Tristate
    requires m in g.memberDefaults
  {
    Typed(g, m, if visible != NO && m in g.memberUser then TriAnd(g.memberUser[m], visible) else OwnDefault(g, m, ct))
  }

  /** A member's final value. */
  function MemberTri(g: Group, m: Symbol): Tristate
    requires m in g.prompts && m in g.memberDefaults
  {
    var visible := MemberVisible(g, m, ChoiceTri(g));
    if visible == YES then (if ChoiceVal(g) == Some(m) then YES else NO)
    else UnchosenTri(g, m, visible, ChoiceTri(g))
  }

  /** The choice's own value: what the user wants of it where it is visible, and at least
      its reverse dependency; no default counts. */
  lemma OwnTriIs(g: Group)
    requires TwoOrThreeValued(g.choice.typ)
    ensures var t, v, m := ChoiceTable(g), g.env, g.choice.typ == TTristate && g.modules != NO;
            var shown, rev := SymbolValues.Visible(t, g.choice, v), RevTri(t, g.choice, v);
            var want := if shown != NO && g.choice in g.choiceUser then TriAnd(g.choiceUser[g.choice], shown) else NO;
            OwnTri(g) == if m then TriOr(want, rev) else Promote(TriOr(want, rev))
  {
  }

  lemma TypedIs(g: Group, m: Symbol, tri: Tristate)
    requires TwoOrThreeValued(m.typ)
    ensures Typed(g, m, tri) == if m.typ == TTristate && g.modules != NO then tri else Promote(tri)
  {
  }

  // ----- exactly one member -----

  lemma {:induction false} PromptsTwoValued(m: Symbol, ps: seq<Expr>, v: Valuation)
    requires m.typ == TTristate
    ensures MemberPrompts(m, ps, YES, v) != MOD
  {
    if ps != [] { PromptsTwoValued(m, ps[..|ps| - 1], v); }
  }

  /** While the choice is y a member is either fully visible or not at all. */
  lemma VisibleTwoValued(g: Group, m: Symbol)
    requires m in g.prompts
    ensures MemberVisible(g, m, YES) != MOD
  {
    if m.typ == TTristate { PromptsTwoValued(m, g.prompts[m], WithChoice(g, YES)); }
  }

  lemma {:induction false} FirstShownDefaultIn(g: Group, ds: seq<(Option<Expr>, Symbol)>)
    ensures var r := FirstShownDefault(g, ds);
            r.Some? ==> Shown(g, r.value) && exists d :: d in ds && d.1 == r.value
  {
    if ds != [] && !(EvalOpt(ds[0].0, WithChoice(g, YES)) != NO && Shown(g, ds[0].1)) {
      FirstShownDefaultIn(g, ds[1..]);
    }
  }

  lemma {:induction false} FirstShownIn(g: Group, ms: seq<Symbol>)
    ensures var r := FirstShown(g, ms);
            (r.Some? ==> Shown(g, r.value) && r.value in ms) && (r.None? ==> forall m :: m in ms ==> !Shown(g, m))
  {
    if ms != [] && !Shown(g, ms[0]) { FirstShownIn(g, ms[1..]); }
  }

  /** The member chosen is a visible member; there is one unless no member is visible. */
  lemma ChosenShown(g: Group)
    requires GroupOk(g)
    ensures var c := Chosen(g);
            (c.Some? ==> c.value in g.members && Shown(g, c.value)) &&
            (c.None? ==> forall m :: m in g.members ==> !Shown(g, m))
  {
    FirstShownDefaultIn(g, g.defaults);
    FirstShownIn(g, g.members);
  }

  /** A prompt counts unless it is n, or belongs to a tristate member and is m while the
      choice is y. */
  predicate PromptCounts(m: Symbol, e: Expr, ct: Tristate, v: Valuation) {
    Eval(e, v) == YES || (Eval(e, v) == MOD && !(m.typ == TTristate && ct == YES))
  }

  lemma {:induction false} PromptsAre(m: Symbol, ps: seq<Expr>, ct: Tristate, v: Valuation)
    ensures MemberPrompts(m, ps, ct, v) != NO <==> exists i :: 0 <= i < |ps| && PromptCounts(m, ps[i], ct, v)
    ensures MemberPrompts(m, ps, ct, v) == YES <==> exists i :: 0 <= i < |ps| && Eval(ps[i], v) == YES
  {
    if ps != [] {
      var n, qs := |ps| - 1, ps[..|ps| - 1];
      PromptsAre(m, qs, ct, v);
      if i :| 0 <= i < n && PromptCounts(m, qs[i], ct, v) { assert PromptCounts(m, ps[i], ct, v); }
      if i :| 0 <= i < n && Eval(qs[i], v) == YES { assert Eval(ps[i], v) == YES; }
      if i :| 0 <= i < |ps| && PromptCounts(m, ps[i], ct, v) { assert i < n ==> PromptCounts(m, qs[i], ct, v); }
      if i :| 0 <= i < |ps| && Eval(ps[i], v) == YES { assert i < n ==> Eval(qs[i], v) == YES; }
    }
  }

  /** A member is visible exactly if one of its prompts counts. It is visible at m only
      if it is tristate, modules are on and none of its prompts is y. */
  lemma MemberVisibleIs(g: Group, m: Symbol, ct: Tristate)
    requires m in g.prompts
    ensures var ps, v := g.prompts[m], WithChoice(g, ct);
            && (MemberVisible(g, m, ct) != NO <==> exists i :: 0 <= i < |ps| && PromptCounts(m, ps[i], ct, v))
            && (MemberVisible(g, m, ct) == MOD ==>
                  m.typ == TTristate && g.modules != NO && forall i :: 0 <= i < |ps| ==> Eval(ps[i], v) != YES)
            && (MemberVisible(g, m, ct) == YES && m.typ == TTristate && g.modules != NO ==>
                  exists i :: 0 <= i < |ps| && Eval(ps[i], v) == YES)
  {
    PromptsAre(m, g.prompts[m], ct, WithChoice(g, ct));
  }

  // ----- which member is chosen -----

  /** The i-th default of the choice can be followed: its condition is not n and its member
      is visible. */
  predicate Applies(g: Group, i: nat) {
    && i < |g.defaults| && g.defaults[i].1 in g.prompts
    && EvalOpt(g.defaults[i].0, WithChoice(g, YES)) != NO && MemberVisible(g, g.defaults[i].1, YES) != NO
  }

  /** The i-th member is visible. */
  predicate VisibleAt(g: Group, i: nat) {
    i < |g.members| && g.members[i] in g.prompts && MemberVisible(g, g.members[i], YES) != NO
  }

  predicate FirstApplies(g: Group, i: nat) { Applies(g, i) && forall j: nat :: j < i ==> !Applies(g, j) }

  predicate FirstVisible(g: Group, i: nat) { VisibleAt(g, i) && forall j: nat :: j < i ==> !VisibleAt(g, j) }

  predicate PickVisible(g: Group) {
    g.pick.Some? && g.pick.value in g.prompts && MemberVisible(g, g.pick.value, YES) != NO
  }

  /** c is the member a y choice should have: the user's pick if that is visible; failing
      that, the member of the first default that can be followed; failing that, the first
      visible member; and none if there is none. */
  ghost predicate Preferred(g: Group, c: Option<Symbol>) {
    if PickVisible(g) then c == g.pick
    else if exists i: nat :: Applies(g, i) then exists i: nat :: FirstApplies(g, i) && c == Some(g.defaults[i].1)
    else if exists i: nat :: VisibleAt(g, i) then exists i: nat :: FirstVisible(g, i) && c == Some(g.members[i])
    else c == None
  }

  lemma {:induction false} DefaultIndex(g: Group, k: nat) returns (i: nat)
    requires k <= |g.defaults|
    ensures k <= i <= |g.defaults| && (forall j :: k <= j < i ==> !Applies(g, j))
    ensures i < |g.defaults| ==> Applies(g, i) && FirstShownDefault(g, g.defaults[k..]) == Some(g.defaults[i].1)
    ensures i == |g.defaults| ==> FirstShownDefault(g, g.defaults[k..]) == None
    decreases |g.defaults| - k
  {
    i := k;
    if k < |g.defaults| && !Applies(g, k) {
      i := DefaultIndex(g, k + 1);
      assert g.defaults[k..][1..] == g.defaults[k + 1..];
    }
  }

  lemma {:induction false} MemberIndex(g: Group, k: nat) returns (i: nat)
    requires k <= |g.members|
    ensures k <= i <= |g.members| && (forall j :: k <= j < i ==> !VisibleAt(g, j))
    ensures i < |g.members| ==> VisibleAt(g, i) && FirstShown(g, g.members[k..]) == Some(g.members[i])
    ensures i == |g.members| ==> FirstShown(g, g.members[k..]) == None
    decreases |g.members| - k
  {
    i := k;
    if k < |g.members| && !VisibleAt(g, k) {
      i := MemberIndex(g, k + 1);
      assert g.members[k..][1..] == g.members[k + 1..];
    }
  }

  /** sym_calc_choice follows that order, and the order leaves no doubt. */
  lemma ChosenPreferred(g: Group, c: Option<Symbol>)
    ensures Preferred(g, c) <==> c == Chosen(g)
  {
    var i := DefaultIndex(g, 0);
    var j := MemberIndex(g, 0);
    assert g.defaults[0..] == g.defaults && g.members[0..] == g.members;
    if i < |g.defaults| { assert FirstApplies(g, i); } else { assert forall k: nat :: !Applies(g, k); }
    if j < |g.members| { assert FirstVisible(g, j); } else { assert forall k: nat :: !VisibleAt(g, k); }
    OnlyFirst(g);
  }

  lemma OnlyFirst(g: Group)
    ensures forall i: nat, j: nat :: FirstApplies(g, i) && FirstApplies(g, j) ==> i == j
    ensures forall i: nat, j: nat :: FirstVisible(g, i) && FirstVisible(g, j) ==> i == j
  {
  }

  /** The choice is its own value, but n instead of y if no member is visible. */
  lemma ChoiceTriIs(g: Group)
    requires GroupOk(g)
    ensures ChoiceTri(g) == if OwnTri(g) == YES && !(exists i: nat :: VisibleAt(g, i)) then NO else OwnTri(g)
  {
    ChosenShown(g);
    if Chosen(g).Some? {
      var i: nat :| i < |g.members| && g.members[i] == Chosen(g).value;
      assert VisibleAt(g, i);
    } else {
      forall i: nat ensures !VisibleAt(g, i) { if i < |g.members| { assert g.members[i] in g.members; } }
    }
  }

  /** While the choice is y: the chosen member is y, every other visible member is n,
      and an invisible member is what its defaults say of a choice that is y. */
  lemma MembersOfChosen(g: Group)
    requires GroupOk(g) && ChoiceTri(g) == YES
    ensures var c := ChoiceVal(g);
            c.Some? && c == Chosen(g) && c.value in g.members && MemberTri(g, c.value) == YES &&
            forall m :: m in g.members && m != c.value ==>
              MemberTri(g, m) == if Shown(g, m) then NO else Typed(g, m, OwnDefault(g, m, YES))
  {
    ChosenShown(g);
    forall m | m in g.members
      ensures MemberTri(g, m) == if ChoiceVal(g) == Some(m) then YES
                                 else if Shown(g, m) then NO else Typed(g, m, OwnDefault(g, m, YES))
    {
      VisibleTwoValued(g, m);
    }
  }

  /** While the choice is not y: a fully visible member is n, one that is visible at m is
      what the user wants of it, and all others are what their defaults say. */
  lemma OpenMember(g: Group, m: Symbol)
    requires GroupOk(g) && ChoiceTri(g) != YES && m in g.members
    ensures MemberVisible(g, m, ChoiceTri(g)) == YES ==> MemberTri(g, m) == NO
    ensures MemberVisible(g, m, ChoiceTri(g)) == MOD && m in g.memberUser ==>
              MemberTri(g, m) == TriAnd(g.memberUser[m], MOD)
    ensures MemberVisible(g, m, ChoiceTri(g)) != YES ==>
              MemberVisible(g, m, ChoiceTri(g)) == NO || m !in g.memberUser ==>
                MemberTri(g, m) == Typed(g, m, OwnDefault(g, m, ChoiceTri(g)))
  {
    MemberVisibleIs(g, m, ChoiceTri(g));
  }

  /** Exactly one member is y. */
  ghost predicate ExactlyOne(g: Group)
    requires GroupOk(g)
  {
    exists c :: c in g.members && MemberTri(g, c) == YES &&
      forall m :: m in g.members && m != c ==> MemberTri(g, m) != YES
  }

  /** The defaults of the member, read with the choice at y, make it y. */
  predicate DefaultsToYes(g: Group, m: Symbol)
    requires m in g.memberDefaults
  {
    Typed(g, m, OwnDefault(g, m, YES)) == YES
  }

  /** When a choice is y exactly one of its members is y - if and only if no
      invisible member is made y by a default of its own ("defaults for choice
      values not supported"). */
  lemma ExactlyOneMember(g: Group)
    requires GroupOk(g) && ChoiceTri(g) == YES
    ensures ExactlyOne(g) <==> forall m :: m in g.members && !Shown(g, m) ==> !DefaultsToYes(g, m)
  {
    MembersOfChosen(g);
    ChosenShown(g);
    var c := ChoiceVal(g).value;
    if forall m :: m in g.members && !Shown(g, m) ==> !DefaultsToYes(g, m) {
      assert MemberTri(g, c) == YES;
    } else {
      var m :| m in g.members && !Shown(g, m) && DefaultsToYes(g, m);
      assert m != c && MemberTri(g, m) == YES && MemberTri(g, c) == YES;
    }
  }

  /** A choice that is y with two members that are y: a is chosen, and b, which is never
      visible, has the default y, on the condition that menu_finalize gives every
      property of a member. */
  function TwoMembers(c: Symbol, a: Symbol, b: Symbol, env: Valuation): Group {
    Group(c, SymDef([None], [], None, None), map[c := YES], [a, b],
          map[a := [Sym(c)], b := [Bin(Conj, Sym(c), Sym(SYM_NO))]],
          map[a := [], b := [(Some(Sym(c)), Sym(SYM_YES))]], map[], [], None, YES, env)
  }

  lemma MemberDefaultFails(c: Symbol, a: Symbol, b: Symbol, env: Valuation)
    requires WellFormed(env) && c.typ == a.typ == b.typ == TBoolean && a != b && a != c && b != c
    ensures var g := TwoMembers(c, a, b, env);
            GroupOk(g) && ChoiceTri(g) == YES && MemberTri(g, a) == YES && MemberTri(g, b) == YES && !ExactlyOne(g)
  {
    var g := TwoMembers(c, a, b, env);
    assert SymOk(SYM_YES, env(SYM_YES)) && SymOk(SYM_NO, env(SYM_NO));
    assert OwnTri(g) == YES by {
      var t := ChoiceTable(g);
      assert t.defs[c].prompts[..0] == [] && AnyPrompt(t.defs[c].prompts, env) == YES;
    }
    TwoVisible(c, a, b, env);
    assert ContainsSymbol(Sym(c), c) && ContainsSymbol(Bin(Conj, Sym(c), Sym(SYM_NO)), c);
    assert WithChoice(g, YES)(SYM_YES) == env(SYM_YES) && OwnDefault(g, b, YES) == YES;
  }

  lemma TwoVisible(c: Symbol, a: Symbol, b: Symbol, env: Valuation)
    requires WellFormed(env) && c.typ == a.typ == b.typ == TBoolean && a != b && a != c && b != c
    ensures var g := TwoMembers(c, a, b, env); MemberVisible(g, a, YES) == YES && MemberVisible(g, b, YES) == NO
  {
    var g := TwoMembers(c, a, b, env);
    var v := WithChoice(g, YES);
    assert SymOk(SYM_NO, env(SYM_NO)) && v(SYM_NO) == env(SYM_NO);
    var p, q := Sym(c), Bin(Conj, Sym(c), Sym(SYM_NO));
    assert g.prompts[a] == [p] && g.prompts[b] == [q] && [p][..0] == [] && [q][..0] == [];
    assert Eval(p, v) == YES && Eval(Sym(SYM_NO), v) == NO && Eval(q, v) == NO;
    assert MemberPrompts(a, [p], YES, v) == YES && MemberPrompts(b, [q], YES, v) == NO;
  }

  /** Without defaults of their own the members always satisfy that. */
  lemma NoMemberDefaults(g: Group)
    requires GroupOk(g) && ChoiceTri(g) == YES
    requires forall m :: m in g.members ==> m in g.memberDefaults && g.memberDefaults[m] == []
    ensures ExactlyOne(g)
  {
    NoDefaultUnchosen(g);
    ExactlyOneMember(g);
  }

  lemma NoDefaultUnchosen(g: Group)
    requires forall m :: m in g.members ==> m in g.memberDefaults && g.memberDefaults[m] == []
    ensures forall m :: m in g.members ==> OwnDefault(g, m, YES) == NO
  {
  }

  // ----- the calculation as it runs -----

  /** The calculated fields of the choice and its members. */
  datatype State = State(
    choiceValid: bool, choiceTri: Tristate, choiceVal: Option<Symbol>,
    valid: set<Symbol>, visible: map<Symbol, Tristate>, curr: map<Symbol, Tristate>)

  /** The choice's value as a member's condition finds it: calculating a condition
      calculates the choice first. */
  function SeenTri(g: Group, s: State): Tristate { if s.choiceValid then s.choiceTri else ChoiceTri(g) }

  ghost predicate StateOk(g: Group, s: State) {
    GroupOk(g) && s.visible.Keys == s.curr.Keys == (set m | m in g.members) && s.valid <= s.curr.Keys
  }

  /** The choice is either not calculated or finished. */
  ghost predicate ChoiceFinished(g: Group, s: State) {
    s.choiceValid ==> s.choiceTri == ChoiceTri(g) && s.choiceVal == ChoiceVal(g)
  }

  /** A calculated member has its final value, and if it has prompts it has had the
      choice calculated. */
  ghost predicate MemberOk(g: Group, s: State, m: Symbol)
    requires StateOk(g, s) && m in g.members
  {
    m in s.valid ==>
      && s.visible[m] == MemberVisible(g, m, ChoiceTri(g)) && s.curr[m] == MemberTri(g, m)
      && (g.prompts[m] != [] ==> s.choiceValid)
  }

  ghost predicate MembersOk(g: Group, s: State, n: nat)
    requires StateOk(g, s) && n <= |g.members|
  {
    n == 0 || (MemberOk(g, s, g.members[n - 1]) && MembersOk(g, s, n - 1))
  }

  /** Between two calls every calculated symbol is finished. */
  ghost predicate Finished(g: Group, s: State) {
    StateOk(g, s) && ChoiceFinished(g, s) && MembersOk(g, s, |g.members|)
  }

  lemma {:induction false} MembersOkAt(g: Group, s: State, n: nat, i: nat)
    requires StateOk(g, s) && i < n <= |g.members| && MembersOk(g, s, n)
    ensures MemberOk(g, s, g.members[i])
  {
    if i < n - 1 { MembersOkAt(g, s, n - 1, i); }
  }

  lemma {:induction false} MembersOkAll(g: Group, s: State, n: nat)
    requires StateOk(g, s) && n <= |g.members|
    requires forall i :: 0 <= i < n ==> MemberOk(g, s, g.members[i])
    ensures MembersOk(g, s, n)
  {
    if n > 0 { MembersOkAll(g, s, n - 1); }
  }

  /** What Finished promises about one member. */
  lemma FinishedMember(g: Group, s: State, m: Symbol)
    requires Finished(g, s) && m in g.members
    ensures MemberOk(g, s, m)
  {
    var i :| 0 <= i < |g.members| && g.members[i] == m;
    MembersOkAt(g, s, |g.members|, i);
  }

  function AllVisible(g: Group): map<Symbol, Tristate>
    requires forall m :: m in g.members ==> m in g.prompts
  {
    map m | m in g.members :: MemberVisible(g, m, YES)
  }

  /** The state once the choice is calculated too. */
  function Done(g: Group, s: State): State
    requires forall m :: m in g.members ==> m in g.prompts
  {
    if s.choiceValid then s
    else s.(choiceValid := true, choiceTri := ChoiceTri(g), choiceVal := ChoiceVal(g),
            visible := if OwnTri(g) == YES then AllVisible(g) else s.visible)
  }

  /** A finished state stays one when the choice is calculated: a member that is
      already calculated either has had the choice calculated or has no prompt. */
  lemma DoneFinished(g: Group, s: State)
    requires Finished(g, s)
    ensures Finished(g, Done(g, s)) && SeenTri(g, Done(g, s)) == SeenTri(g, s) == ChoiceTri(g)
  {
    var d := Done(g, s);
    forall i | 0 <= i < |g.members| ensures MemberOk(g, d, g.members[i]) {
      FinishedMember(g, s, g.members[i]);
    }
    MembersOkAll(g, d, |g.members|);
  }

  lemma ShownUpTo(g: Group, vis: map<Symbol, Tristate>, vis': map<Symbol, Tristate>, n: nat)
    requires GroupOk(g) && n < |g.members| && vis' == vis[g.members[n] := MemberVisible(g, g.members[n], YES)]
    requires forall k :: 0 <= k < n ==> g.members[k] in vis && vis[g.members[k]] == MemberVisible(g, g.members[k], YES)
    ensures forall k :: 0 <= k <= n ==>
              g.members[k] in vis' && vis'[g.members[k]] == MemberVisible(g, g.members[k], YES)
  {
  }

  lemma ShownAll(g: Group, vis: map<Symbol, Tristate>)
    requires GroupOk(g) && vis.Keys == set m | m in g.members
    requires forall k :: 0 <= k < |g.members| ==> vis[g.members[k]] == MemberVisible(g, g.members[k], YES)
    ensures vis == AllVisible(g)
  {
    assert vis.Keys == AllVisible(g).Keys;
    forall m | m in vis ensures vis[m] == AllVisible(g)[m] {
      var k :| 0 <= k < |g.members| && g.members[k] == m;
    }
  }

  class ChoiceCalc {
    const g: Group
    var st: State

    constructor (g: Group)
      requires GroupOk(g)
      ensures this.g == g && Finished(g, st) && !st.choiceValid && st.valid == {}
    {
      this.g := g;
      st := State(false, NO, None, {}, map m | m in g.members :: NO, map m | m in g.members :: NO);
      new;
      MembersOkAll(g, st, |g.members|);
    }

    /** expr_calc_value of a member's condition. */
    method ExprCalc(e: Expr) returns (r: Tristate)
      requires StateOk(g, st)
      modifies this
      ensures st == old(st) || st == Done(g, old(st))
      ensures ContainsSymbol(e, g.choice) ==> st == Done(g, old(st))
      ensures r == Eval(e, WithChoice(g, SeenTri(g, old(st))))
      decreases !st.choiceValid, 1, Size(e)
    {
      match e
      case Bin(t, a, b) =>
        var val1 := ExprCalc(a);
        var val2 := ExprCalc(b);
        r := Apply(t, val1, val2);
      case Not(a) =>
        var val1 := ExprCalc(a);
        r := TriNot(val1);
      case Sym(s) =>
        if s == g.choice { CalcChoice(); }
        r := WithChoice(g, st.choiceTri)(s).tri;
      case Cmp(rel, a, b) =>
        r := CompareCalc(rel, a, b);
    }

    method CompareCalc(rel: Relation, a: Symbol, b: Symbol) returns (r: Tristate)
      requires StateOk(g, st)
      modifies this
      ensures st == old(st) || st == Done(g, old(st))
      ensures a == g.choice || b == g.choice ==> st == Done(g, old(st))
      ensures r == Compare(rel, a, b, WithChoice(g, SeenTri(g, old(st))))
      decreases !st.choiceValid, 1, 0
    {
      if a == g.choice { CalcChoice(); }
      if b == g.choice { CalcChoice(); }
      r := Compare(rel, a, b, WithChoice(g, st.choiceTri));
    }

    /** The prompt loop of sym_calc_visibility for the member m. */
    method CalcPrompts(m: Symbol) returns (tri: Tristate)
      requires StateOk(g, st) && m in g.members
      modifies this
      ensures st == if g.prompts[m] == [] then old(st) else Done(g, old(st))
      ensures tri == MemberPrompts(m, g.prompts[m], SeenTri(g, old(st)), WithChoice(g, SeenTri(g, old(st))))
      decreases !st.choiceValid, 2
    {
      tri := NO;
      var i, ps := 0, g.prompts[m];
      ghost var ct := SeenTri(g, st);
      while i < |ps|
        invariant 0 <= i <= |ps| && st == if i == 0 then old(st) else Done(g, old(st))
        invariant tri == MemberPrompts(m, ps[..i], ct, WithChoice(g, ct))
      {
        var v := ExprCalc(ps[i]);
        assert ps[i] in ps;
        if m.typ == TTristate && v == MOD && st.choiceTri == YES {
          v := NO;
        }
        tri := TriOr(tri, v);
        assert ps[..i + 1][..i] == ps[..i] && ps[..i + 1][i] == ps[i];
        i := i + 1;
      }
      assert ps[..i] == ps;
    }

    /** sym_calc_visibility of the member m. */
    method CalcVisibility(m: Symbol)
      requires StateOk(g, st) && m in g.members
      modifies this
      ensures var s := if g.prompts[m] == [] then old(st) else Done(g, old(st));
              st == s.(visible := s.visible[m := MemberVisible(g, m, SeenTri(g, old(st)))])
      decreases !st.choiceValid, 3
    {
      var tri := CalcPrompts(m);
      if tri == MOD && (m.typ != TTristate || g.modules == NO) {
        tri := YES;
      }
      st := st.(visible := st.visible[m := tri]);
    }

    /** sym_calc_value of the choice. */
    method CalcChoice()
      requires StateOk(g, st)
      modifies this
      ensures st == Done(g, old(st))
      decreases !st.choiceValid, 0
    {
      if st.choiceValid {
        return;
      }
      var own := OwnTri(g);
      st := st.(choiceValid := true, choiceTri := own, choiceVal := None);
      if own == YES {
        ChooseMember();
      }
    }

    /** sym_calc_choice */
    method ChooseMember()
      requires StateOk(g, st) && st.choiceValid && st.choiceTri == YES && OwnTri(g) == YES
      modifies this
      ensures st == old(st).(choiceTri := ChoiceTri(g), choiceVal := ChoiceVal(g), visible := AllVisible(g))
      decreases !st.choiceValid, 4, 1
    {
      CalcVisibilities();
      var chosen := Choose();
      st := st.(choiceVal := chosen);
      if chosen == None {
        st := st.(choiceTri := NO);
      }
    }

    method CalcVisibilities()
      requires StateOk(g, st) && st.choiceValid && st.choiceTri == YES && OwnTri(g) == YES
      modifies this
      ensures st == old(st).(visible := AllVisible(g))
      decreases !st.choiceValid, 4, 0
    {
      var i := 0;
      while i < |g.members|
        invariant 0 <= i <= |g.members| && StateOk(g, st) && st == old(st).(visible := st.visible)
        invariant forall k :: 0 <= k < i ==> st.visible[g.members[k]] == MemberVisible(g, g.members[k], YES)
      {
        ghost var before := st.visible;
        CalcVisibility(g.members[i]);
        ShownUpTo(g, before, st.visible, i);
        i := i + 1;
      }
      ShownAll(g, st.visible);
    }

    /** The user's pick, or sym_choice_default. */
    method Choose() returns (c: Option<Symbol>)
      requires StateOk(g, st) && st.visible == AllVisible(g) && st.choiceTri == YES
      ensures c == Chosen(g)
    {
      if g.pick.Some? && st.visible[g.pick.value] != NO {
        return g.pick;
      }
      c := ChooseDefault();
      if c == None {
        c := ChooseFirst();
      }
    }

    method ChooseDefault() returns (c: Option<Symbol>)
      requires StateOk(g, st) && st.visible == AllVisible(g) && st.choiceTri == YES
      ensures c == FirstShownDefault(g, g.defaults)
    {
      var i := 0;
      while i < |g.defaults|
        invariant 0 <= i <= |g.defaults| && FirstShownDefault(g, g.defaults) == FirstShownDefault(g, g.defaults[i..])
      {
        var d := g.defaults[i];
        assert d in g.defaults;
        if EvalOpt(d.0, WithChoice(g, st.choiceTri)) != NO && st.visible[d.1] != NO {
          return Some(d.1);
        }
        i := i + 1;
      }
      return None;
    }

    method ChooseFirst() returns (c: Option<Symbol>)
      requires StateOk(g, st) && st.visible == AllVisible(g)
      ensures c == FirstShown(g, g.members)
    {
      var i := 0;
      while i < |g.members|
        invariant 0 <= i <= |g.members| && FirstShown(g, g.members) == FirstShown(g, g.members[i..])
      {
        if st.visible[g.members[i]] != NO {
          return Some(g.members[i]);
        }
        i := i + 1;
      }
      return None;
    }

    /** sym_get_default_prop for the member m, and the use sym_calc_value makes of the
        property found: both calculate the choice if they read it. */
    method CalcDefault(m: Symbol) returns (tri: Tristate)
      requires StateOk(g, st) && m in g.members
      modifies this
      ensures st == old(st) || st == Done(g, old(st))
      ensures tri == OwnDefault(g, m, SeenTri(g, old(st)))
      decreases !st.choiceValid, 2
    {
      var i, ds := 0, g.memberDefaults[m];
      ghost var v := WithChoice(g, SeenTri(g, st));
      while i < |ds|
        invariant 0 <= i <= |ds| && (st == old(st) || st == Done(g, old(st)))
        invariant DefaultTri(ds, v) == DefaultTri(ds[i..], v)
      {
        var cond := YES;
        if ds[i].0.Some? {
          cond := ExprCalc(ds[i].0.value);
        }
        if cond != NO {
          var val := ExprCalc(ds[i].1);
          return TriAnd(val, cond);
        }
        i := i + 1;
      }
      return NO;
    }

    /** The part of sym_calc_value for a member that is not fully visible. */
    method CalcUnchosen(m: Symbol) returns (tri: Tristate)
      requires StateOk(g, st) && m in g.members
      modifies this
      ensures st == old(st) || st == Done(g, old(st))
      ensures tri == UnchosenTri(g, m, old(st.visible[m]), SeenTri(g, old(st)))
    {
      if st.visible[m] != NO && m in g.memberUser {
        tri := TriAnd(g.memberUser[m], st.visible[m]);
      } else {
        tri := CalcDefault(m);
      }
      if tri == MOD && EffectiveType(m, g.modules) == TBoolean {
        tri := YES;
      }
    }

    /** The VALID flag of the member m, then its visibility. */
    method BeginMember(m: Symbol)
      requires StateOk(g, st) && SeenTri(g, st) == ChoiceTri(g) && m in g.members
      modifies this
      ensures st == SeenState(g, old(st), m, MemberVisible(g, m, ChoiceTri(g)))
    {
      st := st.(valid := st.valid + {m});
      CalcVisibility(m);
    }

    /** The rest of sym_calc_value for the member m. */
    method MemberValue(m: Symbol) returns (tri: Tristate)
      requires StateOk(g, st) && SeenTri(g, st) == ChoiceTri(g) && m in g.members
      requires st.visible[m] == MemberVisible(g, m, ChoiceTri(g))
      modifies this
      ensures st == old(st) || st == Done(g, old(st))
      ensures MemberResult(g, old(st), m, old(st.visible[m]), tri)
    {
      if st.visible[m] == YES {
        return if st.choiceVal == Some(m) then YES else NO;
      }
      tri := CalcUnchosen(m);
    }

    /** sym_calc_value of the member m. */
    method CalcMember(m: Symbol)
      requires Finished(g, st) && m in g.members
      modifies this
      ensures Finished(g, st) && m in st.valid && old(st.valid) <= st.valid
      ensures old(st.choiceValid) ==> st.choiceValid
    {
      if m in st.valid {
        return;
      }
      ghost var s0, vis := st, MemberVisible(g, m, ChoiceTri(g));
      BeginMember(m);
      SeenFinished(g, s0, m);
      var tri := MemberValue(m);
      MemberReached(g, s0, st, m, vis, tri);
      st := st.(curr := st.curr[m := tri]);
    }

    ghost predicate Calculated(s: Symbol) reads this { if s == g.choice then st.choiceValid else s in st.valid }

    /** Calculate the choice and any of its members, in any order and interleaving:
        whatever is calculated has its one value, and if the choice is y exactly one
        member is. */
    method CalcAll(order: seq<Symbol>)
      requires Finished(g, st) && forall s :: s in order ==> s == g.choice || s in g.members
      modifies this
      ensures Finished(g, st)
      ensures forall s :: s in order ==> Calculated(s)
    {
      var i := 0;
      while i < |order|
        invariant 0 <= i <= |order| && Finished(g, st)
        invariant forall s :: s in order[..i] ==> Calculated(s)
      {
        assert order[i] in order && order[..i + 1] == order[..i] + [order[i]];
        CalcSym(order[i]);
        i := i + 1;
      }
      assert order[..i] == order;
    }

    /** sym_calc_value */
    method CalcSym(s: Symbol)
      requires Finished(g, st) && (s == g.choice || s in g.members)
      modifies this
      ensures Finished(g, st) && Calculated(s) && forall x :: old(Calculated(x)) ==> Calculated(x)
    {
      if s == g.choice {
        DoneFinished(g, st);
        CalcChoice();
      } else {
        CalcMember(s);
      }
    }
  }

  /** The state a member's calculation starts from, once the choice is calculated if one
      of the member's conditions has read it. */
  ghost predicate Reached(g: Group, s: State, d: State, m: Symbol)
    requires StateOk(g, s) && m in g.members
  {
    d == Done(g, s) || (d == s && g.prompts[m] == [])
  }

  /** s' has the visibility and the value stored for the member m, and is else d. */
  ghost predicate MemberStored(d: State, s': State, m: Symbol, vis: Tristate, tri: Tristate) {
    s' == State(d.choiceValid, d.choiceTri, d.choiceVal, d.valid + {m}, d.visible[m := vis], d.curr[m := tri])
  }

  /** The visibility and the value are those sym_calc_value should store. */
  ghost predicate MemberResult(g: Group, d: State, m: Symbol, vis: Tristate, tri: Tristate)
    requires StateOk(g, d) && m in g.members
  {
    && vis == MemberVisible(g, m, ChoiceTri(g))
    && tri == if vis == YES then (if d.choiceVal == Some(m) then YES else NO)
              else UnchosenTri(g, m, vis, ChoiceTri(g))
  }

  lemma NewMemberOk(g: Group, s: State, d: State, s': State, m: Symbol, vis: Tristate, tri: Tristate)
    requires Finished(g, s) && StateOk(g, d) && StateOk(g, s') && m in g.members && Reached(g, s, d, m)
    requires MemberStored(d, s', m, vis, tri) && MemberResult(g, d, m, vis, tri)
    ensures MemberOk(g, s', m)
  {
    if g.prompts[m] == [] { assert vis == NO; }
  }

  lemma OtherMemberOk(g: Group, d: State, s': State, m: Symbol, n: Symbol)
    requires StateOk(g, d) && StateOk(g, s') && n in g.members && n != m && MemberOk(g, d, n)
    requires s'.valid == d.valid + {m} && s'.choiceValid == d.choiceValid
    requires s'.visible[n] == d.visible[n] && s'.curr[n] == d.curr[n]
    ensures MemberOk(g, s', n)
  {
  }

  lemma StoredOk(g: Group, d: State, s': State, m: Symbol, vis: Tristate, tri: Tristate)
    requires StateOk(g, d) && ChoiceFinished(g, d) && m in g.members && MemberStored(d, s', m, vis, tri)
    ensures StateOk(g, s') && ChoiceFinished(g, s')
  {
  }

  lemma MemberFinished(g: Group, s: State, d: State, s': State, m: Symbol, vis: Tristate, tri: Tristate)
    requires Finished(g, s) && StateOk(g, d) && m in g.members && Reached(g, s, d, m)
    requires MemberStored(d, s', m, vis, tri) && MemberResult(g, d, m, vis, tri)
    ensures Finished(g, s')
  {
    assert Finished(g, d) by { DoneFinished(g, s); }
    StoredOk(g, d, s', m, vis, tri);
    NewMemberOk(g, s, d, s', m, vis, tri);
    OthersFinished(g, d, s', m, vis, tri);
  }

  /** The state after the visibility of m has been calculated, starting from s. */
  function SeenState(g: Group, s: State, m: Symbol, vis: Tristate): State
    requires GroupOk(g) && m in g.members
  {
    var b := s.(valid := s.valid + {m});
    var d := if g.prompts[m] == [] then b else Done(g, b);
    d.(visible := d.visible[m := vis])
  }

  /** In it the member still finds the final value of the choice. */
  lemma SeenFinished(g: Group, s: State, m: Symbol)
    requires Finished(g, s) && m in g.members
    ensures var e := SeenState(g, s, m, MemberVisible(g, m, ChoiceTri(g)));
            StateOk(g, e) && SeenTri(g, e) == ChoiceTri(g)
  {
  }

  lemma StoredSeen(g: Group, s: State, m: Symbol, vis: Tristate, tri: Tristate)
    requires GroupOk(g) && m in g.members
    ensures var e := SeenState(g, s, m, vis);
            MemberStored(if g.prompts[m] == [] then s else Done(g, s), e.(curr := e.curr[m := tri]), m, vis, tri)
  {
  }

  /** The choice is calculated only when a default is looked at. */
  lemma StoredLate(g: Group, s: State, m: Symbol, vis: Tristate, tri: Tristate)
    requires GroupOk(g) && m in g.members && vis == MemberVisible(g, m, YES)
    ensures var e := Done(g, SeenState(g, s, m, vis));
            MemberStored(Done(g, s), e.(curr := e.curr[m := tri]), m, vis, tri)
  {
    var all := AllVisible(g);
    assert all[m := vis] == all;
  }

  lemma MemberReached(g: Group, s: State, e: State, m: Symbol, vis: Tristate, tri: Tristate)
    requires Finished(g, s) && m in g.members && MemberResult(g, SeenState(g, s, m, vis), m, vis, tri)
    requires e == SeenState(g, s, m, vis) || e == Done(g, SeenState(g, s, m, vis))
    ensures Finished(g, e.(curr := e.curr[m := tri]))
  {
    var d := if g.prompts[m] == [] && e == SeenState(g, s, m, vis) then s else Done(g, s);
    if e == SeenState(g, s, m, vis) { StoredSeen(g, s, m, vis, tri); } else { StoredLate(g, s, m, vis, tri); }
    MemberFinished(g, s, d, e.(curr := e.curr[m := tri]), m, vis, tri);
  }

  lemma OthersFinished(g: Group, d: State, s': State, m: Symbol, visible: Tristate, tri: Tristate)
    requires Finished(g, d) && StateOk(g, s') && m in g.members && MemberOk(g, s', m)
    requires s'.valid == d.valid + {m} && s'.choiceValid == d.choiceValid
    requires s'.visible == d.visible[m := visible] && s'.curr == d.curr[m := tri]
    ensures MembersOk(g, s', |g.members|)
  {
    forall i | 0 <= i < |g.members| ensures MemberOk(g, s', g.members[i]) {
      if g.members[i] != m {
        FinishedMember(g, d, g.members[i]);
        OtherMemberOk(g, d, s', m, g.members[i]);
      }
    }
    MembersOkAll(g, s', |g.members|);
  }

  /** What the finished table holds for a member; when the choice is y, a member that is
      visible or without defaults of its own is y exactly if it is the preferred one. */
  lemma FinishedValue(g: Group, s: State, m: Symbol)
    requires Finished(g, s) && s.choiceValid && m in s.valid
    ensures s.curr[m] == MemberTri(g, m)
    ensures s.choiceTri == YES && (g.memberDefaults[m] == [] || MemberVisible(g, m, YES) != NO) ==>
              (s.curr[m] == YES <==> Preferred(g, Some(m)))
    ensures s.choiceTri == YES && PickVisible(g) && g.pick == Some(m) ==> s.curr[m] == YES
  {
    FinishedMember(g, s, m);
    ChosenPreferred(g, Some(m));
    if s.choiceTri == YES { MembersOfChosen(g); }
  }

  /** Evaluate a choice and its members in any order: the values do not depend on
      the order, and when the choice is y exactly the preferred member is y (among the
      members that are visible or have no defaults of their own), the user's pick if that
      is visible. */
  method EvaluateChoice(g: Group, order: seq<Symbol>) returns (choice: Tristate, values: map<Symbol, Tristate>)
    requires GroupOk(g) && g.choice in order && (forall m :: m in g.members ==> m in order)
    requires forall s :: s in order ==> s == g.choice || s in g.members
    ensures choice == ChoiceTri(g) && forall m :: m in g.members ==> m in values && values[m] == MemberTri(g, m)
    ensures choice == YES ==>
              forall m :: m in g.members && (g.memberDefaults[m] == [] || MemberVisible(g, m, YES) != NO) ==>
                (values[m] == YES <==> Preferred(g, Some(m)))
    ensures choice == YES && PickVisible(g) ==> values[g.pick.value] == YES
  {
    var run := new ChoiceCalc(g);
    run.CalcAll(order);
    choice, values := run.st.choiceTri, run.st.curr;
    ghost var s := run.st;
    forall m | m in g.members
      ensures m in values && values[m] == MemberTri(g, m)
      ensures choice == YES && (g.memberDefaults[m] == [] || MemberVisible(g, m, YES) != NO) ==>
                (values[m] == YES <==> Preferred(g, Some(m)))
      ensures choice == YES && PickVisible(g) && g.pick == Some(m) ==> values[m] == YES
    {
      assert m in order && m != g.choice;
      FinishedValue(g, s, m);
    }
  }
}
