/** The traversal of conf_write (scripts/kconfig/confdata.c): a walk over the
    finished menu tree that uses only next, list and parent pointers. */
module ConfWriting {
  import opened Exprs
  import opened MenuForest
  import opened MenuFinalisation

  /** What is left to visit above par: up[0] is the rest of the list par is in,
      up[1] that of par's parent, and so on up to the root, which stands alone. */
  ghost predicate Upward(ls: seq<Link>, root: nat, par: int, up: seq<seq<Tree>>)
    decreases |up|
  {
    && 0 <= par < |ls|
    && if up == [] then par == root && ls[root].next == NULL && ls[root].parent == NULL
       else Seg(ls, up[0], ls[par].next, NULL, ls[par].parent) && Upward(ls, root, ls[par].parent, up[1..])
  }

  ghost function Pending(up: seq<seq<Tree>>): seq<nat> {
    if up == [] then [] else Pre(up[0]) + Pending(up[1..])
  }

  /** Visiting s in this order prints each flagged symbol at its first visit. */
  function FirstVisits(syms: seq<Option<Symbol>>, flagged: set<Symbol>): (r: seq<Symbol>)
    ensures forall s :: s in r ==> s in flagged
  {
    if syms == [] then []
    else if syms[0].Some? && syms[0].value in flagged then
      [syms[0].value] + FirstVisits(syms[1..], flagged - {syms[0].value})
    else FirstVisits(syms[1..], flagged)
  }

  /** No symbol is printed twice, and exactly the flagged ones that are visited are printed. */
  lemma {:induction false} FirstVisitsOnce(syms: seq<Option<Symbol>>, flagged: set<Symbol>)
    ensures var r := FirstVisits(syms, flagged);
            (forall i, j :: 0 <= i < j < |r| ==> r[i] != r[j]) &&
            (forall s :: s in r <==> s in flagged && Some(s) in syms)
  {
    if syms != [] {
      var s := syms[0];
      if s.Some? && s.value in flagged {
        FirstVisitsOnce(syms[1..], flagged - {s.value});
        var r := FirstVisits(syms[1..], flagged - {s.value});
        assert forall x :: x in [s.value] + r <==> x == s.value || x in r;
        assert forall x :: Some(x) in syms <==> x == s.value || Some(x) in syms[1..];
      } else {
        FirstVisitsOnce(syms[1..], flagged);
        assert forall x :: Some(x) in syms <==> Some(x) == s || Some(x) in syms[1..];
      }
    }
  }

  lemma {:induction false} FirstVisitsSnoc(syms: seq<Option<Symbol>>, s: Option<Symbol>, flagged: set<Symbol>)
    ensures FirstVisits(syms + [s], flagged) ==
            FirstVisits(syms, flagged) +
            (if s.Some? && s.value in flagged && s !in syms then [s.value] else [])
  {
    if syms == [] {
      assert [s][1..] == [];
    } else {
      var all := syms + [s];
      assert all[1..] == syms[1..] + [s];
      var rest := if syms[0].Some? then flagged - {syms[0].value} else flagged;
      if syms[0].Some? && syms[0].value in flagged {
        FirstVisitsSnoc(syms[1..], s, rest);
      } else {
        FirstVisitsSnoc(syms[1..], s, flagged);
      }
    }
  }

  /** The symbols of the entries ids, in their order. */
  function SymsOf(syms: seq<Option<Symbol>>, ids: seq<nat>): seq<Option<Symbol>> {
    seq(|ids|, i requires 0 <= i < |ids| => if ids[i] < |syms| then syms[ids[i]] else None)
  }

  /** The cursor of the walk: at the front of the list f below par, or past the end. */
  ghost predicate Cursor(ls: seq<Link>, root: nat, menu: int, f: seq<Tree>, par: int, up: seq<seq<Tree>>) {
    if menu == NULL then f == [] && up == []
    else Seg(ls, f, menu, NULL, par) && Upward(ls, root, par, up)
  }

  lemma CursorEntry(ls: seq<Link>, root: nat, menu: int, f: seq<Tree>, par: int, up: seq<seq<Tree>>)
    requires Cursor(ls, root, menu, f, par, up) && menu != NULL
    ensures 0 <= menu < |ls| && f != [] && f[0].id == menu && ls[menu].parent == par
    ensures Seg(ls, f[0].kids, ls[menu].list, NULL, menu) && Seg(ls, f[1..], ls[menu].next, NULL, par)
    ensures ls[menu].list == NULL <==> f[0].kids == []
    ensures ls[menu].next == NULL <==> f[1..] == []
  {
  }

  lemma PreFront(f: seq<Tree>, tail: seq<nat>)
    requires f != []
    ensures Pre(f) + tail == [f[0].id] + (Pre(f[0].kids) + (Pre(f[1..]) + tail))
  {
    Regroup(f[0].id, Pre(f[0].kids), Pre(f[1..]), tail);
  }

  lemma Regroup(x: nat, a: seq<nat>, b: seq<nat>, c: seq<nat>)
    ensures ([x] + a + b) + c == [x] + (a + (b + c))
  {
  }

  lemma PendingPush(rest: seq<Tree>, up: seq<seq<Tree>>)
    ensures ([rest] + up)[0] == rest && ([rest] + up)[1..] == up
    ensures Pending([rest] + up) == Pre(rest) + Pending(up)
  {
    assert ([rest] + up)[1..] == up;
  }

  lemma Reassociate(a: seq<nat>, x: nat, b: seq<nat>)
    ensures a + ([x] + b) == (a + [x]) + b
  {
  }

  class ConfWriter {
    /** non-choice symbols with SYMBOL_WRITE set, once their value is calculated */
    var flagged: set<Symbol>
    /** the symbols printed so far */
    var printed: seq<Symbol>

    constructor (flagged: set<Symbol>)
      ensures this.flagged == flagged && printed == []
    {
      this.flagged, printed := flagged, [];
    }

    /** What conf_write does at one entry. */
    method Visit(sym: Option<Symbol>)
      modifies this
      ensures flagged == old(flagged) - (if sym.Some? then {sym.value} else {})
      ensures printed == old(printed) + (if sym.Some? && sym.value in old(flagged) then [sym.value] else [])
    {
      if sym.Some? && sym.value in flagged {
        flagged := flagged - {sym.value};
        printed := printed + [sym.value];
      }
    }

    /** The while (menu) loop of conf_write: the entries below the root are visited
        in pre-order, each exactly once, so every flagged symbol is printed once. */
    method Walk(ls: seq<Link>, syms: seq<Option<Symbol>>, root: nat, ghost kids: seq<Tree>)
      returns (ghost visited: seq<nat>)
      requires |syms| == |ls| && root < |ls| && ls[root].next == NULL && ls[root].parent == NULL
      requires Seg(ls, kids, ls[root].list, NULL, root)
      requires printed == []
      modifies this
      ensures visited == Pre(kids)
      ensures printed == FirstVisits(SymsOf(syms, Pre(kids)), old(flagged))
    {
      visited := [];
      var menu := ls[root].list;
      ghost var f, par, up: seq<seq<Tree>>, want := kids, root as int, [], flagged;
      while menu != NULL
        invariant Cursor(ls, root, menu, f, par, up)
        invariant visited + (Pre(f) + Pending(up)) == Pre(kids)
        invariant printed == FirstVisits(SymsOf(syms, visited), want)
        invariant forall s :: s in flagged <==> s in want && Some(s) !in SymsOf(syms, visited)
        decreases |Pre(f)| + |Pending(up)|
      {
        CursorEntry(ls, root, menu, f, par, up);
        VisitStep(syms, visited, menu, want);
        Visit(syms[menu]);
        ghost var was, cur := visited, menu;
        visited := visited + [menu];
        menu, f, par, up := Advance(ls, root, menu, f, par, up);
        Reassociate(was, cur, Pre(f) + Pending(up));
      }
    }
  }

  /** Where the cursor goes from an entry: into its list, to its next sibling, or up. */
  method Advance(ls: seq<Link>, root: nat, cur: nat, ghost f0: seq<Tree>, ghost par0: int, ghost up0: seq<seq<Tree>>)
      returns (menu: int, ghost f: seq<Tree>, ghost par: int, ghost up: seq<seq<Tree>>)
    requires Cursor(ls, root, cur, f0, par0, up0)
    ensures Cursor(ls, root, menu, f, par, up)
    ensures Pre(f0) + Pending(up0) == [cur] + (Pre(f) + Pending(up))
  {
    CursorEntry(ls, root, cur, f0, par0, up0);
    if ls[cur].list != NULL {
      IntoList(ls, root, cur, f0, par0, up0);
      return ls[cur].list, f0[0].kids, cur, [f0[1..]] + up0;
    }
    NoList(ls, root, cur, f0, par0, up0);
    if ls[cur].next != NULL {
      return ls[cur].next, f0[1..], par0, up0;
    }
    menu, f, par, up := Climb(ls, root, cur, par0, up0);
  }

  lemma IntoList(ls: seq<Link>, root: nat, cur: nat, f0: seq<Tree>, par0: int, up0: seq<seq<Tree>>)
    requires Cursor(ls, root, cur, f0, par0, up0) && f0 != [] && cur < |ls| && ls[cur].list != NULL
    ensures Cursor(ls, root, ls[cur].list, f0[0].kids, cur, [f0[1..]] + up0)
    ensures Pre(f0) + Pending(up0) == [cur] + (Pre(f0[0].kids) + Pending([f0[1..]] + up0))
  {
    CursorEntry(ls, root, cur, f0, par0, up0);
    PreFront(f0, Pending(up0));
    PendingPush(f0[1..], up0);
    assert ([f0[1..]] + up0)[1..] == up0;
  }

  lemma NoList(ls: seq<Link>, root: nat, cur: nat, f0: seq<Tree>, par0: int, up0: seq<seq<Tree>>)
    requires Cursor(ls, root, cur, f0, par0, up0) && f0 != [] && cur < |ls| && ls[cur].list == NULL
    ensures Pre(f0) + Pending(up0) == [cur] + (Pre(f0[1..]) + Pending(up0)) && ls[cur].parent == par0
    ensures if ls[cur].next != NULL then Cursor(ls, root, ls[cur].next, f0[1..], par0, up0) else f0[1..] == []
  {
    CursorEntry(ls, root, cur, f0, par0, up0);
    EmptyFront(f0, Pending(up0));
  }

  lemma EmptyFront(f: seq<Tree>, tail: seq<nat>)
    requires f != [] && f[0].kids == []
    ensures Pre(f) + tail == [f[0].id] + (Pre(f[1..]) + tail)
  {
    PreFront(f, tail);
    assert [] + (Pre(f[1..]) + tail) == Pre(f[1..]) + tail;
  }

  /** The inner loop: climb to the closest ancestor with a following sibling. */
  method Climb(ls: seq<Link>, root: nat, from: nat, ghost par0: int, ghost up0: seq<seq<Tree>>)
      returns (menu: int, ghost f: seq<Tree>, ghost par: int, ghost up: seq<seq<Tree>>)
    requires from < |ls| && ls[from].parent == par0 && Upward(ls, root, par0, up0)
    ensures Pre(f) + Pending(up) == Pending(up0)
    ensures Cursor(ls, root, menu, f, par, up)
  {
    menu, f, par, up := ls[from].parent, [], par0, up0;
    while menu != NULL
      invariant menu == NULL ==> up == []
      invariant menu != NULL ==> menu == par && Upward(ls, root, par, up)
      invariant f == [] && Pending(up) == Pending(up0)
      decreases menu != NULL, |up|
    {
      if up != [] { SegNull(ls, up[0], ls[menu].next, ls[menu].parent); }
      if ls[menu].next != NULL {
        f, par, up := up[0], ls[menu].parent, up[1..];
        menu := ls[menu].next;
        return;
      }
      if up != [] { up := up[1..]; }
      menu := ls[menu].parent;
      par := menu;
    }
  }

  lemma VisitStep(syms: seq<Option<Symbol>>, visited: seq<nat>, x: nat, want: set<Symbol>)
    requires x < |syms|
    ensures SymsOf(syms, visited + [x]) == SymsOf(syms, visited) + [syms[x]]
    ensures FirstVisits(SymsOf(syms, visited + [x]), want) ==
            FirstVisits(SymsOf(syms, visited), want) +
            (if syms[x].Some? && syms[x].value in want && syms[x] !in SymsOf(syms, visited)
             then [syms[x].value] else [])
  {
    var a, b := SymsOf(syms, visited + [x]), SymsOf(syms, visited);
    assert a == b + [syms[x]];
    FirstVisitsSnoc(b, syms[x], want);
  }

  function EntrySyms(es: seq<Entry>): seq<Option<Symbol>> { seq(|es|, i requires 0 <= i < |es| => es[i].sym) }

  lemma {:induction false} SymKept(orig: seq<Entry>, cur: seq<Entry>, f: seq<Tree>, x: nat,
                                   ok: Scope, up: Scope, choices: set<Symbol>, exact: bool)
    requires |orig| == |cur| && AllGated(orig, cur, f, ok, up, choices, exact) && x in Pre(f)
    ensures x < |cur| && cur[x].sym == orig[x].sym
  {
    PreUnfold(f);
    if x in Pre(f[0].kids) {
      SymKept(orig, cur, f[0].kids, x, ok, GateOf(orig[f[0].id], up, choices), choices, exact);
    } else if x in Pre(f[1..]) {
      SymKept(orig, cur, f[1..], x, ok, up, choices, exact);
    }
  }

  /** menu_finalize followed by conf_write: whatever was nested or flattened in
      between, the flagged symbols are printed in the order in which the entries
      were declared, each once. */
  method FinalizeAndWrite(t: MenuTable, w: ConfWriter, ghost root: Tree)
    requires |t.links| == |t.entries| && Seg(t.links, [root], 0, NULL, NULL) && Distinct(Pre([root]))
    requires t.Untouched() && t.home == t.links && w.printed == []
    modifies t, t.rw, w
    ensures w.printed == FirstVisits(SymsOf(EntrySyms(old(t.entries)), Pre(root.kids)), old(w.flagged))
  {
    ghost var orig := t.entries;
    ghost var root' := FinalizeRoot(t, root);
    SymsKept(orig, t.entries, root, root', RootScope(orig), Everywhere(), t.choices, t.Exact());
    ghost var visited := w.Walk(t.links, EntrySyms(t.entries), 0, root'.kids);
  }

  lemma SymsKept(orig: seq<Entry>, cur: seq<Entry>, root: Tree, root': Tree, ok: Scope, up: Scope, choices: set<Symbol>,
                 exact: bool)
    requires |orig| == |cur| && AllGated(orig, cur, [root], ok, up, choices, exact) && Pre([root']) == Pre([root])
    ensures Pre(root'.kids) == Pre(root.kids)
    ensures SymsOf(EntrySyms(cur), Pre(root.kids)) == SymsOf(EntrySyms(orig), Pre(root.kids))
  {
    PreUnfold([root]);
    PreUnfold([root']);
    assert Pre(root.kids) == Pre([root])[1..] && Pre(root'.kids) == Pre([root'])[1..];
    forall x | x in Pre(root.kids) ensures x < |orig| && cur[x].sym == orig[x].sym {
      SymKept(orig, cur, [root], x, ok, up, choices, exact);
    }
  }
}
