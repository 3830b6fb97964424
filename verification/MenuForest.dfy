/** The pointer structure of struct menu (scripts/kconfig/expr.h): next, parent
    and list links, and the forest of entries they represent. */
module MenuForest {

  lemma Snoc<T>(s: seq<T>, j: nat)
    requires j < |s|
    ensures s[..j] + [s[j]] == s[..j + 1]
    ensures s[j..] != [] && s[j..][0] == s[j] && s[j..][1..] == s[j + 1..]
  {
  }

  lemma SuffixOfSuffix<T>(s: seq<T>, j: nat, k: nat)
    requires j + k <= |s|
    ensures s[j..][k..] == s[j + k..] && s[..j] + s[j..][..k] == s[..j + k]
  {
  }

  /** A NULL struct menu pointer. */
  const NULL: int := -1

  datatype Link = Link(next: int, parent: int, list: int)

  datatype Tree = Tree(id: nat, kids: seq<Tree>)

  /** The entries of a sibling list and of everything below it, in pre-order. */
  function Pre(f: seq<Tree>): seq<nat> {
    if f == [] then [] else [f[0].id] + Pre(f[0].kids) + Pre(f[1..])
  }

  /** The sibling list that starts at head and ends just before tail represents
      the forest f, and every entry of it has the right parent pointer. */
  ghost predicate Seg(ls: seq<Link>, f: seq<Tree>, head: int, tail: int, par: int) {
    if f == [] then head == tail
    else
      && head == f[0].id < |ls|
      && ls[head].parent == par
      && Seg(ls, f[0].kids, ls[head].list, NULL, head)
      && Seg(ls, f[1..], ls[head].next, tail, par)
  }

  ghost predicate Distinct(s: seq<nat>) { forall i, j :: 0 <= i < j < |s| ==> s[i] != s[j] }

  /** Only the links of the entries in s may differ. */
  ghost predicate SameElsewhere(ls: seq<Link>, ls': seq<Link>, s: seq<nat>) {
    |ls| == |ls'| && forall i :: 0 <= i < |ls| && i !in s ==> ls'[i] == ls[i]
  }

  lemma DistinctSplit(a: seq<nat>, b: seq<nat>)
    ensures Distinct(a + b) <==> Distinct(a) && Distinct(b) && (forall x :: x in a ==> x !in b)
  {
    var c := a + b;
    if Distinct(c) {
      forall i, j | 0 <= i < j < |a| ensures a[i] != a[j] { assert c[i] == a[i] && c[j] == a[j]; }
      forall i, j | 0 <= i < j < |b| ensures b[i] != b[j] { assert c[|a| + i] == b[i] && c[|a| + j] == b[j]; }
      forall i, j | 0 <= i < |a| && 0 <= j < |b| ensures a[i] != b[j] {
        assert c[i] == a[i] && c[|a| + j] == b[j];
      }
    }
    if Distinct(a) && Distinct(b) && forall x :: x in a ==> x !in b {
      forall i, j | 0 <= i < j < |c| ensures c[i] != c[j] {
        if j < |a| {
        } else if i < |a| {
          assert c[i] in a && c[j] == b[j - |a|];
        } else {
          assert c[i] == b[i - |a|] && c[j] == b[j - |a|];
        }
      }
    }
  }

  lemma HeadSplit(h: nat, a: seq<nat>, b: seq<nat>)
    ensures forall x :: x in [h] + (a + b) <==> x == h || x in a || x in b
    ensures Distinct([h] + (a + b)) ==>
              h !in a && h !in b && Distinct(a) && Distinct(b) && (forall x :: x in a ==> x !in b)
  {
    assert forall x :: x in a + b <==> x in a || x in b;
    DistinctSplit([h], a + b);
    DistinctSplit(a, b);
    assert h in [h];
  }

  lemma PreUnfold(f: seq<Tree>)
    requires f != []
    ensures Pre(f) == [f[0].id] + (Pre(f[0].kids) + Pre(f[1..]))
    ensures forall x :: x in Pre(f) <==> x == f[0].id || x in Pre(f[0].kids) || x in Pre(f[1..])
    ensures Distinct(Pre(f)) ==>
              && f[0].id !in Pre(f[0].kids) && f[0].id !in Pre(f[1..])
              && Distinct(Pre(f[0].kids)) && Distinct(Pre(f[1..]))
              && (forall x :: x in Pre(f[0].kids) ==> x !in Pre(f[1..]))
  {
    PreParts(f);
    HeadSplit(f[0].id, Pre(f[0].kids), Pre(f[1..]));
  }

  lemma PreParts(f: seq<Tree>)
    requires f != []
    ensures Pre(f) == [f[0].id] + (Pre(f[0].kids) + Pre(f[1..]))
  {
    Reassociated([f[0].id], Pre(f[0].kids), Pre(f[1..]));
  }

  lemma Reassociated(a: seq<nat>, b: seq<nat>, c: seq<nat>)
    ensures a + b + c == a + (b + c)
  {
  }

  lemma {:induction false} PreAppend(f: seq<Tree>, g: seq<Tree>)
    ensures Pre(f + g) == Pre(f) + Pre(g)
  {
    if f == [] {
      assert f + g == g;
    } else {
      assert (f + g)[0] == f[0] && (f + g)[1..] == f[1..] + g;
      PreAppend(f[1..], g);
    }
  }

  lemma {:induction false} SegInRange(ls: seq<Link>, f: seq<Tree>, head: int, tail: int, par: int)
    requires Seg(ls, f, head, tail, par)
    ensures forall x :: x in Pre(f) ==> x < |ls|
  {
    if f != [] {
      SegInRange(ls, f[0].kids, ls[head].list, NULL, head);
      SegInRange(ls, f[1..], ls[head].next, tail, par);
    }
  }

  /** A forest is untouched by changes to other entries' links. */
  lemma {:induction false} SegFrame(ls: seq<Link>, ls': seq<Link>, f: seq<Tree>, head: int, tail: int, par: int)
    requires Seg(ls, f, head, tail, par) && |ls'| == |ls|
    requires forall x :: x in Pre(f) && x < |ls| ==> ls'[x] == ls[x]
    ensures Seg(ls', f, head, tail, par)
  {
    if f != [] {
      PreUnfold(f);
      assert head in Pre(f);
      SegFrame(ls, ls', f[0].kids, ls[head].list, NULL, head);
      SegFrame(ls, ls', f[1..], ls[head].next, tail, par);
    }
  }

  lemma {:induction false} SegAppend(ls: seq<Link>, f: seq<Tree>, g: seq<Tree>, head: int, mid: int, tail: int,
                                     par: int)
    requires Seg(ls, f, head, mid, par) && Seg(ls, g, mid, tail, par)
    ensures Seg(ls, f + g, head, tail, par)
  {
    if f == [] {
      assert f + g == g;
    } else {
      assert (f + g)[0] == f[0] && (f + g)[1..] == f[1..] + g;
      SegAppend(ls, f[1..], g, ls[head].next, mid, tail, par);
    }
  }

  /** A list that starts at NULL is empty. */
  lemma SegNull(ls: seq<Link>, f: seq<Tree>, head: int, par: int)
    requires Seg(ls, f, head, NULL, par)
    ensures head == NULL <==> f == []
  {
  }

  lemma SplitAt(f: seq<Tree>, k: nat)
    requires k <= |f|
    ensures Pre(f) == Pre(f[..k]) + Pre(f[k..])
    ensures Distinct(Pre(f)) ==>
              Distinct(Pre(f[..k])) && Distinct(Pre(f[k..])) && forall x :: x in Pre(f[..k]) ==> x !in Pre(f[k..])
  {
    assert f == f[..k] + f[k..];
    PreAppend(f[..k], f[k..]);
    DistinctSplit(Pre(f[..k]), Pre(f[k..]));
  }

  lemma {:induction false} RootsInPre(f: seq<Tree>, i: nat)
    requires i < |f|
    ensures f[i].id in Pre(f)
  {
    if i > 0 { RootsInPre(f[1..], i - 1); }
  }

  /** Redirecting the last entry of a sibling list. */
  lemma {:induction false} SegRetail(ls: seq<Link>, f: seq<Tree>, head: int, tail: int, par: int, tail': int)
    requires Seg(ls, f, head, tail, par) && f != [] && Distinct(Pre(f))
    ensures var last := f[|f| - 1].id;
            last < |ls| && last in Pre(f) && ls[last].next == tail &&
            Seg(ls[last := ls[last].(next := tail')], f, head, tail', par)
  {
    var last := f[|f| - 1].id;
    PreUnfold(f);
    RootsInPre(f, |f| - 1);
    SegInRange(ls, f, head, tail, par);
    var ls' := ls[last := ls[last].(next := tail')];
    if |f| == 1 {
      SegFrame(ls, ls', f[0].kids, ls[head].list, NULL, head);
    } else {
      SegRetail(ls, f[1..], ls[head].next, tail, par, tail');
      RootsInPre(f[1..], |f| - 2);
      SegFrame(ls, ls', f[0].kids, ls[head].list, NULL, head);
    }
  }

  /** Giving the first entry of a sibling list another parent makes it a list of
      its own; the entries after it keep theirs. */
  lemma SegAdopt(ls: seq<Link>, f: seq<Tree>, head: int, par: int, par': int)
    requires Seg(ls, f, head, NULL, par) && f != [] && Distinct(Pre(f))
    ensures head in Pre(f) && head < |ls|
    ensures var ls' := ls[head := ls[head].(parent := par')];
            Seg(ls', f[..1], head, ls[head].next, par') && Seg(ls', f[1..], ls[head].next, NULL, par)
  {
    var ls' := ls[head := ls[head].(parent := par')];
    PreUnfold(f);
    SegInRange(ls, f, head, NULL, par);
    SegFrame(ls, ls', f[0].kids, ls[head].list, NULL, head);
    SegFrame(ls, ls', f[1..], ls[head].next, NULL, par);
  }

  /** Splitting a sibling list after its first entry. */
  lemma SegFirst(ls: seq<Link>, f: seq<Tree>, head: int, tail: int, par: int)
    requires Seg(ls, f, head, tail, par) && f != []
    ensures head in Pre(f) && 0 <= head < |ls|
    ensures Seg(ls, f[..1], head, ls[head].next, par) && Seg(ls, f[1..], ls[head].next, tail, par)
  {
    PreUnfold(f);
  }

  /** The entries at the top of a sibling list. */
  function Roots(f: seq<Tree>): (r: seq<nat>)
    ensures |r| == |f| && forall i :: 0 <= i < |f| ==> r[i] == f[i].id
  {
    if f == [] then [] else [f[0].id] + Roots(f[1..])
  }

  lemma {:induction false} RootsDistinct(f: seq<Tree>)
    requires Distinct(Pre(f))
    ensures Distinct(Roots(f))
    ensures forall i, x :: 0 <= i < |f| && x in Pre(f[i].kids) ==> x !in Roots(f)
    ensures forall x :: x in Roots(f) ==> x in Pre(f)
  {
    if f != [] {
      PreUnfold(f);
      RootsDistinct(f[1..]);
      var r := Roots(f);
      assert r == [f[0].id] + Roots(f[1..]);
      assert forall x :: x in Roots(f[1..]) ==> x in Pre(f[1..]) && x in Pre(f);
      DistinctSplit([f[0].id], Roots(f[1..]));
      forall i, x | 0 <= i < |f| && x in Pre(f[i].kids) ensures x !in r {
        if i > 0 {
          assert f[i] == f[1..][i - 1];
          KidsInPre(f[1..], i - 1, x);
        }
      }
    }
  }

  lemma {:induction false} KidsInPre(f: seq<Tree>, i: nat, x: nat)
    requires i < |f| && x in Pre(f[i].kids)
    ensures x in Pre(f)
  {
    if i > 0 { assert f[i] == f[1..][i - 1]; KidsInPre(f[1..], i - 1, x); }
  }

  /** The entry at position i of a list of roots, or what the list ends with. */
  function NthOr(r: seq<nat>, i: nat, tail: int): int { if i < |r| then r[i] else tail }

  /** Following next pointers visits the roots in order. */
  lemma {:induction false} SegSiblings(ls: seq<Link>, f: seq<Tree>, head: int, tail: int, par: int)
    requires Seg(ls, f, head, tail, par)
    ensures head == NthOr(Roots(f), 0, tail)
    ensures forall i :: 0 <= i < |f| ==> Roots(f)[i] < |ls| && ls[Roots(f)[i]].next == NthOr(Roots(f), i + 1, tail)
  {
    if f != [] {
      SegSiblings(ls, f[1..], ls[head].next, tail, par);
      var r, q := Roots(f), Roots(f[1..]);
      assert r == [f[0].id] + q;
      forall i | 0 <= i < |f| ensures r[i] < |ls| && ls[r[i]].next == NthOr(r, i + 1, tail) {
        if i > 0 { assert r[i] == q[i - 1]; }
      }
    }
  }

  // ----- the steps of menu_finalize on links -----

  /** One sibling moves from the front of the part still under par to the end of
      the part already under par'. */
  lemma ReparentStep(ls: seq<Link>, f: seq<Tree>, i: nat, head: int, cur: int, par: int, par': int)
    requires i < |f| && Distinct(Pre(f))
    requires Seg(ls, f[..i], head, cur, par') && Seg(ls, f[i..], cur, NULL, par)
    ensures 0 <= cur < |ls| && cur in Pre(f) && cur == f[i].id
    ensures var ls' := ls[cur := ls[cur].(parent := par')];
            Seg(ls', f[..i + 1], head, ls[cur].next, par') && Seg(ls', f[i + 1..], ls[cur].next, NULL, par)
  {
    SplitAt(f, i);
    Snoc(f, i);
    SegAdopt(ls, f[i..], cur, par, par');
    var ls' := ls[cur := ls[cur].(parent := par')];
    SegFrame(ls, ls', f[..i], head, cur, par');
    assert f[i..][..1] == [f[i]];
    SegAppend(ls', f[..i], [f[i]], head, cur, ls[cur].next, par');
  }

  /** The links after a promptless block c below entry n has been spliced in
      behind n: its entries have par as parent already. */
  function Spliced(ls: seq<Link>, n: nat, last: nat): seq<Link>
    requires n < |ls| && last < |ls|
  {
    var ls1 := ls[last := ls[last].(next := ls[n].next)];
    ls1[n := ls1[n].(next := ls1[n].list, list := NULL)]
  }

  lemma SpliceStep(ls: seq<Link>, n: nat, c: seq<Tree>, rest: seq<Tree>, par: int)
    requires n < |ls| && c != [] && Distinct(Pre(c)) && n !in Pre(c) && n !in Pre(rest)
    requires (forall x :: x in Pre(c) ==> x !in Pre(rest)) && ls[n].parent == par
    requires Seg(ls, c, ls[n].list, NULL, par) && Seg(ls, rest, ls[n].next, NULL, par)
    ensures c[|c| - 1].id < |ls| && c[|c| - 1].id in Pre(c)
    ensures Seg(Spliced(ls, n, c[|c| - 1].id), [Tree(n, [])], n, ls[n].list, par)
    ensures Seg(Spliced(ls, n, c[|c| - 1].id), c + rest, ls[n].list, NULL, par)
  {
    var last := c[|c| - 1].id;
    SegRetail(ls, c, ls[n].list, NULL, par, ls[n].next);
    var ls1 := ls[last := ls[last].(next := ls[n].next)];
    SegFrame(ls, ls1, rest, ls[n].next, NULL, par);
    var ls2 := Spliced(ls, n, last);
    SegFrame(ls1, ls2, c, ls[n].list, ls[n].next, par);
    SegFrame(ls1, ls2, rest, ls[n].next, NULL, par);
    SegAppend(ls2, c, rest, ls[n].list, ls[n].next, NULL, par);
    assert [Tree(n, [])][1..] == [];
  }

  /** The list loop moves past entry n, whose block c has just been spliced in behind it. */
  lemma SpliceInList(ls: seq<Link>, done: seq<Tree>, n: nat, c: seq<Tree>, rest: seq<Tree>, head: int, par: int)
    requires n < |ls| && c != [] && Distinct(Pre(c)) && n !in Pre(c) && n !in Pre(rest)
    requires (forall x :: x in Pre(c) ==> x !in Pre(rest)) && ls[n].parent == par
    requires n !in Pre(done) && forall x :: x in Pre(done) ==> x !in Pre(c)
    requires Seg(ls, done, head, n, par)
    requires Seg(ls, c, ls[n].list, NULL, par) && Seg(ls, rest, ls[n].next, NULL, par)
    ensures c[|c| - 1].id < |ls|
    ensures var ls' := Spliced(ls, n, c[|c| - 1].id);
            Seg(ls', done + [Tree(n, [])], head, ls'[n].next, par) && Seg(ls', c + rest, ls'[n].next, NULL, par)
    ensures Pre(done + [Tree(n, [])]) + Pre(c + rest) == Pre(done) + ([n] + (Pre(c) + Pre(rest)))
  {
    SpliceStep(ls, n, c, rest, par);
    var ls' := Spliced(ls, n, c[|c| - 1].id);
    SegFrame(ls, ls', done, head, n, par);
    SegAppend(ls', done, [Tree(n, [])], head, n, ls'[n].next, par);
    PreAppend(done, [Tree(n, [])]);
    PreAppend(c, rest);
    assert Pre([Tree(n, [])]) == [n];
  }

  lemma KeepPre(done: seq<Tree>, rest: seq<Tree>)
    requires rest != []
    ensures Pre(done + rest[..1]) + Pre(rest[1..]) == Pre(done) + Pre(rest)
    ensures |Pre(rest[1..])| < |Pre(rest)|
  {
    assert Pre(done + rest[..1]) == Pre(done) + Pre(rest[..1]) by { PreAppend(done, rest[..1]); }
    assert Pre(rest) == Pre(rest[..1]) + Pre(rest[1..]) by { SplitAt(rest, 1); }
    assert |Pre(rest)| == 1 + |Pre(rest[0].kids)| + |Pre(rest[1..])|;
  }

  /** The list loop moves past an entry that stays as it is. */
  lemma KeepInList(ls: seq<Link>, done: seq<Tree>, rest: seq<Tree>, head: int, n: nat, par: int)
    requires rest != [] && Seg(ls, done, head, n, par) && Seg(ls, rest, n, NULL, par)
    ensures n < |ls|
    ensures Seg(ls, done + rest[..1], head, ls[n].next, par) && Seg(ls, rest[1..], ls[n].next, NULL, par)
  {
    SegFirst(ls, rest, n, NULL, par);
    SegAppend(ls, done, rest[..1], head, n, ls[n].next, par);
  }

  /** What moving past one entry n of the list does: all of it stays in the list
      below m, in the same pre-order, and what remains to visit shrinks. */
  ghost predicate Advanced(ls: seq<Link>, ls': seq<Link>, m: nat, n: nat, done: seq<Tree>, rest: seq<Tree>,
                           done': seq<Tree>, rest': seq<Tree>) {
    && m < |ls| && n < |ls| && |ls'| == |ls| && ls'[m] == ls[m]
    && Seg(ls', done', ls[m].list, ls'[n].next, m) && Seg(ls', rest', ls'[n].next, NULL, m)
    && Pre(done') + Pre(rest') == Pre(done) + Pre(rest) && |Pre(rest')| < |Pre(rest)|
    && SameElsewhere(ls, ls', Pre(rest))
  }

  /** The entry at the front of the list, and where it is. */
  ghost predicate AtFront(ls: seq<Link>, m: nat, n: nat, done: seq<Tree>, rest: seq<Tree>) {
    && m < |ls| && n < |ls| && rest != [] && Distinct(Pre(rest)) && m !in Pre(rest) && m !in Pre(done)
    && (forall x :: x in Pre(done) ==> x !in Pre(rest))
    && Seg(ls, done, ls[m].list, n, m) && Seg(ls, rest, n, NULL, m)
  }

  /** The invariant of the loop over the list below m: done is behind the cursor n,
      rest is at and after it. */
  ghost predicate Traversing(ls: seq<Link>, ls': seq<Link>, m: nat, n: int, kids: seq<Tree>, done: seq<Tree>,
                             rest: seq<Tree>) {
    && m < |ls| && |ls'| == |ls| && ls'[m] == ls[m] && Distinct(Pre(kids)) && m !in Pre(kids)
    && Seg(ls', done, ls[m].list, n, m) && Seg(ls', rest, n, NULL, m)
    && Pre(done) + Pre(rest) == Pre(kids) && SameElsewhere(ls, ls', Pre(kids))
  }

  lemma TraversingFront(ls: seq<Link>, ls': seq<Link>, m: nat, n: int, kids: seq<Tree>, done: seq<Tree>,
                        rest: seq<Tree>)
    requires Traversing(ls, ls', m, n, kids, done, rest) && n != NULL
    ensures 0 <= n && AtFront(ls', m, n, done, rest) && n in Pre(kids)
  {
    DistinctSplit(Pre(done), Pre(rest));
    SegFirst(ls', rest, n, NULL, m);
    assert forall x :: x in Pre(done) || x in Pre(rest) ==> x in Pre(done) + Pre(rest);
  }

  lemma TraversingEnd(ls: seq<Link>, ls': seq<Link>, m: nat, kids: seq<Tree>, done: seq<Tree>, rest: seq<Tree>)
    requires Traversing(ls, ls', m, NULL, kids, done, rest)
    ensures rest == []
  {
  }

  lemma TraversingAdvance(ls: seq<Link>, ls1: seq<Link>, ls2: seq<Link>, m: nat, n: nat, kids: seq<Tree>,
                          done: seq<Tree>, rest: seq<Tree>, done': seq<Tree>, rest': seq<Tree>)
    requires Traversing(ls, ls1, m, n, kids, done, rest)
    requires Advanced(ls1, ls2, m, n, done, rest, done', rest')
    ensures Traversing(ls, ls2, m, ls2[n].next, kids, done', rest')
  {
    assert forall x :: x in Pre(rest) ==> x in Pre(done) + Pre(rest);
  }

  lemma FrontKids(ls: seq<Link>, m: nat, n: nat, done: seq<Tree>, rest: seq<Tree>)
    requires AtFront(ls, m, n, done, rest)
    ensures Distinct(Pre(rest[0].kids)) && n !in Pre(rest[0].kids)
    ensures Seg(ls, rest[0].kids, ls[n].list, NULL, n)
    ensures ls[n].list == NULL <==> rest[0].kids == []
  {
    PreUnfold(rest);
    SegNull(ls, rest[0].kids, ls[n].list, n);
  }

  lemma AdvanceKeep(ls: seq<Link>, m: nat, n: nat, done: seq<Tree>, rest: seq<Tree>)
    requires AtFront(ls, m, n, done, rest)
    ensures Advanced(ls, ls, m, n, done, rest, done + rest[..1], rest[1..])
  {
    KeepInList(ls, done, rest, ls[m].list, n, m);
    KeepPre(done, rest);
  }

  lemma SplicedElsewhere(ls: seq<Link>, ls1: seq<Link>, n: nat, last: nat, inner: seq<nat>, outer: seq<nat>)
    requires SameElsewhere(ls, ls1, inner) && n < |ls| && last < |ls| && last in inner && n in outer
    requires forall x :: x in inner ==> x in outer
    ensures SameElsewhere(ls, Spliced(ls1, n, last), outer)
  {
  }

  lemma AdvanceSplice(ls: seq<Link>, ls1: seq<Link>, m: nat, n: nat, done: seq<Tree>, rest: seq<Tree>)
    requires AtFront(ls, m, n, done, rest) && rest[0].kids != []
    requires |ls1| == |ls| && ls1[n] == ls[n] && Seg(ls1, rest[0].kids, ls[n].list, NULL, m)
    requires SameElsewhere(ls, ls1, Pre(rest[0].kids))
    ensures var c := rest[0].kids;
            c[|c| - 1].id < |ls| &&
            Advanced(ls, Spliced(ls1, n, c[|c| - 1].id), m, n, done, rest, done + [Tree(n, [])], c + rest[1..])
  {
    var c, tail := rest[0].kids, rest[1..];
    PreUnfold(rest);
    SegFirst(ls, rest, n, NULL, m);
    SegFrame(ls, ls1, tail, ls[n].next, NULL, m);
    SegFrame(ls, ls1, done, ls[m].list, n, m);
    assert Pre(rest) == [n] + (Pre(c) + Pre(tail)) && |Pre(c + tail)| == |Pre(c)| + |Pre(tail)|
      by { PreAppend(c, tail); }
    SpliceInList(ls1, done, n, c, tail, ls[m].list, m);
    assert c[|c| - 1].id in Pre(c) by { SpliceStep(ls1, n, c, tail, m); }
    SplicedElsewhere(ls, ls1, n, c[|c| - 1].id, Pre(c), Pre(rest));
  }

  /** What one call of menu_finalize on m does to the links: of the sibling list f
      that starts at m the first k trees end up in one tree rooted at m, the
      pre-order list is kept, and nothing else is touched. */
  ghost predicate Rebuilt(ls: seq<Link>, ls': seq<Link>, f: seq<Tree>, g: seq<Tree>, k: nat, m: nat, par: int) {
    && 1 <= k <= |f| && g != [] && g[0].id == m && g[1..] == f[k..]
    && Seg(ls', g, m, NULL, par) && Pre(g) == Pre(f)
    && SameElsewhere(ls, ls', Pre(f[..k]))
  }

  lemma RebuiltHead(ls: seq<Link>, ls': seq<Link>, f: seq<Tree>, g: seq<Tree>, k: nat, m: nat, par: int)
    requires Rebuilt(ls, ls', f, g, k, m, par)
    ensures Pre(f[..k]) == Pre(g[..1]) && |Pre(f[k..])| < |Pre(f)|
  {
    SplitAt(f, k);
    SplitAt(g, 1);
    assert |Pre(f[..k])| == |Pre(g[..1])|;
    assert Pre(f)[..|Pre(f[..k])|] == Pre(f[..k]);
    assert Pre(g)[..|Pre(g[..1])|] == Pre(g[..1]);
    PreUnfold(g[..1]);
  }

  /** The sibling loop after one more call: done grows by the rebuilt tree. */
  lemma ListStep(ls: seq<Link>, ls': seq<Link>, f: seq<Tree>, j: nat, k: nat, done: seq<Tree>, g: seq<Tree>,
                 head: int, cur: nat, par': int, par: int)
    requires j <= |f| && Distinct(Pre(f)) && Pre(done) == Pre(f[..j])
    requires Seg(ls, done, head, cur, par') && Rebuilt(ls, ls', f[j..], g, k, cur, par)
    ensures j + k <= |f| && Pre(done + g[..1]) == Pre(f[..j + k]) && g[1..] == f[j + k..]
    ensures Distinct(Pre(g)) && forall x :: x in Pre(done) ==> x !in Pre(g)
    ensures Seg(ls', done, head, cur, par')
    ensures SameElsewhere(ls, ls', Pre(f[..j + k]))
  {
    SplitAt(f, j);
    SplitAt(f[j..], k);
    SuffixOfSuffix(f, j, k);
    SegFrame(ls, ls', done, head, cur, par');
    RebuiltHead(ls, ls', f[j..], g, k, cur, par);
    PreAppend(done, g[..1]);
    PreAppend(f[..j], f[j..][..k]);
  }

  lemma PartsIn(f: seq<Tree>, k: nat)
    requires k <= |f|
    ensures forall x :: x in Pre(f) <==> x in Pre(f[..k]) || x in Pre(f[k..])
  {
    SplitAt(f, k);
    var a, b := Pre(f[..k]), Pre(f[k..]);
    assert forall x :: x in a + b <==> x in a || x in b;
  }

  lemma ElsewhereTrans(ls: seq<Link>, ls1: seq<Link>, ls2: seq<Link>, a: seq<nat>, b: seq<nat>, c: seq<nat>)
    requires SameElsewhere(ls, ls1, a) && SameElsewhere(ls1, ls2, b)
    requires forall x :: x in a || x in b ==> x in c
    ensures SameElsewhere(ls, ls2, c)
  {
  }

  lemma NotInParts(f: seq<Tree>, j: nat, k: nat, m: nat)
    requires j + k <= |f| && m !in Pre(f)
    ensures m !in Pre(f[..j]) && m !in Pre(f[j..]) && m !in Pre(f[j..][..k])
  {
    PartsIn(f, j);
    PartsIn(f[j..], k);
  }

  lemma GrowElsewhere(ls: seq<Link>, ls1: seq<Link>, ls2: seq<Link>, f: seq<Tree>, j: nat, k: nat)
    requires j + k <= |f| && SameElsewhere(ls, ls1, Pre(f)) && SameElsewhere(ls1, ls2, Pre(f[j..][..k]))
    ensures SameElsewhere(ls, ls2, Pre(f))
  {
    forall x | 0 <= x < |ls| && x !in Pre(f) ensures ls2[x] == ls[x] {
      NotInParts(f, j, k, x);
    }
  }

  /** The invariant of the loop that finalizes the list below m: done is the
      rebuilt part, and the original trees from position j on are still to come. */
  ghost predicate Sweeping(ls: seq<Link>, ls': seq<Link>, m: nat, cur: int, kids: seq<Tree>, j: nat, done: seq<Tree>) {
    && m < |ls| && |ls'| == |ls| && ls'[m] == ls[m] && Distinct(Pre(kids)) && m !in Pre(kids) && j <= |kids|
    && Seg(ls', done, ls[m].list, cur, m) && Seg(ls', kids[j..], cur, NULL, m)
    && Pre(done) == Pre(kids[..j]) && SameElsewhere(ls, ls', Pre(kids))
  }

  lemma SweepStep(ls: seq<Link>, ls1: seq<Link>, ls2: seq<Link>, m: nat, cur: nat, kids: seq<Tree>, j: nat,
                  done: seq<Tree>, g: seq<Tree>, k: nat)
    requires Sweeping(ls, ls1, m, cur, kids, j, done) && Rebuilt(ls1, ls2, kids[j..], g, k, cur, m)
    ensures cur < |ls2| && Sweeping(ls, ls2, m, ls2[cur].next, kids, j + k, done + g[..1])
    ensures |Pre(kids[j + k..])| < |Pre(kids[j..])|
  {
    GrowElsewhere(ls, ls1, ls2, kids, j, k);
    NotInParts(kids, j, k, m);
    ListStep(ls1, ls2, kids, j, k, done, g, ls[m].list, cur, m, m);
    RebuiltHead(ls1, ls2, kids[j..], g, k, cur, m);
    SuffixOfSuffix(kids, j, k);
    SegFirst(ls2, g, cur, NULL, m);
    SegAppend(ls2, done, g[..1], ls[m].list, cur, ls2[cur].next, m);
  }

  /** The invariant of the loop that puts following siblings r of m below m: d is
      what m has taken so far, last its last entry, and r[i..] is still to come. */
  ghost predicate Absorbing(ls: seq<Link>, ls': seq<Link>, m: nat, cur: int, r: seq<Tree>, i: nat, d: seq<Tree>,
                            last: int, par: int) {
    && m < |ls| && |ls'| == |ls| && ls'[m] == ls[m] && Distinct(Pre(r)) && m !in Pre(r) && i <= |r|
    && Seg(ls', d, ls[m].next, cur, m) && Seg(ls', r[i..], cur, NULL, par)
    && Pre(d) == Pre(r[..i]) && SameElsewhere(ls, ls', Pre(r[..i]))
    && last == (if d == [] then NULL else d[|d| - 1].id) && (d == [] ==> i == 0)
  }

  lemma AbsorbStep(ls: seq<Link>, ls1: seq<Link>, ls2: seq<Link>, m: nat, cur: nat, r: seq<Tree>, i: nat, d: seq<Tree>,
                   last: int, par: int, g: seq<Tree>, k: nat)
    requires Absorbing(ls, ls1, m, cur, r, i, d, last, par) && Rebuilt(ls1, ls2, r[i..], g, k, cur, par)
    ensures cur < |ls2|
    ensures var ls3 := ls2[cur := ls2[cur].(parent := m)];
            Absorbing(ls, ls3, m, ls3[cur].next, r, i + k, d + g[..1], cur, par)
    ensures |Pre(r[i + k..])| < |Pre(r[i..])|
  {
    ListStep(ls1, ls2, r, i, k, d, g, ls[m].next, cur, m, par);
    RebuiltHead(ls1, ls2, r[i..], g, k, cur, par);
    SuffixOfSuffix(r, i, k);
    SegAdopt(ls2, g, cur, par, m);
    var ls3 := ls2[cur := ls2[cur].(parent := m)];
    SegFrame(ls2, ls3, d, ls[m].next, cur, m);
    SegAppend(ls3, d, g[..1], ls[m].next, cur, ls3[cur].next, m);
    AbsorbTouched(ls, ls1, ls2, m, cur, r, i, k, g);
  }

  lemma AbsorbTouched(ls: seq<Link>, ls1: seq<Link>, ls2: seq<Link>, m: nat, cur: nat, r: seq<Tree>,
                      i: nat, k: nat, g: seq<Tree>)
    requires i + k <= |r| && m < |ls| && m !in Pre(r) && cur < |ls2|
    requires SameElsewhere(ls, ls1, Pre(r[..i])) && SameElsewhere(ls1, ls2, Pre(r[i..][..k])) && ls1[m] == ls[m]
    requires g != [] && g[0].id == cur && Pre(g[..1]) == Pre(r[i..][..k])
    ensures var ls3 := ls2[cur := ls2[cur].(parent := m)]; SameElsewhere(ls, ls3, Pre(r[..i + k])) && ls3[m] == ls[m]
  {
    var a, b, c := Pre(r[..i]), Pre(r[i..][..k]), Pre(r[..i + k]);
    var ls3 := ls2[cur := ls2[cur].(parent := m)];
    assert SameElsewhere(ls1, ls3, b) by { PreUnfold(g[..1]); }
    SpanPre(r, i, k);
    ElsewhereTrans(ls, ls1, ls3, a, b, c);
    NotInParts(r, i, k, m);
    assert cur in b by { PreUnfold(g[..1]); }
  }

  lemma SpanPre(r: seq<Tree>, i: nat, k: nat)
    requires i + k <= |r|
    ensures forall x :: x in Pre(r[..i + k]) <==> x in Pre(r[..i]) || x in Pre(r[i..][..k])
  {
    SuffixOfSuffix(r, i, k);
    PreAppend(r[..i], r[i..][..k]);
    var a, b := Pre(r[..i]), Pre(r[i..][..k]);
    assert forall x :: x in a + b <==> x in a || x in b;
  }

  /** The links once m takes the chain from its next sibling up to last as its list. */
  function Taken(ls: seq<Link>, m: nat, last: nat): seq<Link>
    requires m < |ls| && last < |ls|
  {
    var ls1 := ls[m := ls[m].(list := ls[m].next)];
    var ls2 := ls1[m := ls1[m].(next := ls1[last].next)];
    ls2[last := ls2[last].(next := NULL)]
  }

  lemma AbsorbEnd(ls: seq<Link>, ls': seq<Link>, m: nat, cur: int, r: seq<Tree>, i: nat, d: seq<Tree>, last: int,
                  par: int)
    requires Absorbing(ls, ls', m, cur, r, i, d, last, par) && d != []
    requires ls[m].parent == par
    ensures 0 <= last < |ls'| && last in Pre(d)
    ensures Rebuilt(ls, Taken(ls', m, last), [Tree(m, [])] + r, [Tree(m, d)] + r[i..], i + 1, m, par)
  {
    AbsorbEndSegs(ls, ls', m, cur, r, i, d, last, par);
    TakenForest(m, r, i, d);
    TakenTouched(ls, ls', m, last, Pre(r[..i]), Pre(([Tree(m, [])] + r)[..i + 1]));
    assert ([Tree(m, d)] + r[i..])[0] == Tree(m, d);
  }

  lemma AbsorbEndSegs(ls: seq<Link>, ls': seq<Link>, m: nat, cur: int, r: seq<Tree>, i: nat, d: seq<Tree>, last: int,
                      par: int)
    requires Absorbing(ls, ls', m, cur, r, i, d, last, par) && d != [] && ls[m].parent == par
    ensures 0 <= last < |ls'| && last in Pre(d)
    ensures Seg(Taken(ls', m, last), [Tree(m, d)] + r[i..], m, NULL, par)
  {
    assert m !in Pre(d) && m !in Pre(r[i..]) by { PartsIn(r, i); }
    assert Distinct(Pre(d)) && forall x :: x in Pre(d) ==> x !in Pre(r[i..]) by { SplitAt(r, i); }
    SegRetail(ls', d, ls[m].next, cur, m, NULL);
    var g, ls2 := [Tree(m, d)] + r[i..], Taken(ls', m, last);
    assert Seg(ls2, d, ls[m].next, NULL, m) by {
      SegFrame(ls'[last := ls'[last].(next := NULL)], ls2, d, ls[m].next, NULL, m);
    }
    assert Seg(ls2, r[i..], cur, NULL, par) by {
      SegFrame(ls', ls2, r[i..], cur, NULL, par);
    }
    assert g[0] == Tree(m, d) && g[1..] == r[i..];
  }

  lemma TakenTouched(ls: seq<Link>, ls': seq<Link>, m: nat, last: nat, a: seq<nat>, b: seq<nat>)
    requires SameElsewhere(ls, ls', a) && m < |ls| && last < |ls| && last in a && b == [m] + a
    ensures SameElsewhere(ls, Taken(ls', m, last), b)
  {
    assert forall x :: x in a ==> x in b;
    assert m in b;
  }

  /** m with the entries it took is the same pre-order as m followed by them. */
  lemma TakenForest(m: nat, r: seq<Tree>, i: nat, d: seq<Tree>)
    requires i <= |r| && Pre(d) == Pre(r[..i])
    ensures var f, g := [Tree(m, [])] + r, [Tree(m, d)] + r[i..];
            f[i + 1..] == r[i..] && g[1..] == r[i..] && Pre(g) == Pre(f) && Pre(f[..i + 1]) == [m] + Pre(r[..i])
  {
    var f, g := [Tree(m, [])] + r, [Tree(m, d)] + r[i..];
    SplitAt(r, i);
    assert f[1..] == r && g[1..] == r[i..] && f[..i + 1][1..] == r[..i];
    PreUnfold(f);
    PreUnfold(g);
    PreUnfold(f[..i + 1]);
  }

  lemma SweepFront(ls: seq<Link>, ls': seq<Link>, m: nat, cur: int, kids: seq<Tree>, j: nat, done: seq<Tree>)
    requires Sweeping(ls, ls', m, cur, kids, j, done) && cur != NULL
    ensures 0 <= cur < |ls'| && kids[j..] != [] && Distinct(Pre(kids[j..])) && |Pre(kids[j..])| <= |Pre(kids)|
  {
    SplitAt(kids, j);
  }

  lemma AbsorbFront(ls: seq<Link>, ls': seq<Link>, m: nat, cur: int, r: seq<Tree>, i: nat, d: seq<Tree>, last: int,
                    par: int)
    requires Absorbing(ls, ls', m, cur, r, i, d, last, par) && cur != NULL
    ensures 0 <= cur < |ls'| && r[i..] != [] && Distinct(Pre(r[i..])) && |Pre(r[i..])| <= |Pre(r)|
  {
    SplitAt(r, i);
  }

  /** Where the loop has stopped. */
  lemma AbsorbStopped(ls: seq<Link>, ls': seq<Link>, m: nat, cur: int, r: seq<Tree>, i: nat, d: seq<Tree>, last: int,
                      par: int)
    requires Absorbing(ls, ls', m, cur, r, i, d, last, par)
    ensures if cur == NULL then i == |r| else i < |r| && r[i].id == cur
  {
    if cur == NULL { SegNull(ls', r[i..], NULL, par); } else { SegFirst(ls', r[i..], cur, NULL, par); }
  }

  lemma AbsorbNothing(ls: seq<Link>, ls': seq<Link>, m: nat, cur: int, r: seq<Tree>, i: nat, par: int)
    requires Absorbing(ls, ls', m, cur, r, i, [], NULL, par) && ls[m].parent == par && ls[m].list == NULL
    ensures Rebuilt(ls, ls', [Tree(m, [])] + r, [Tree(m, [])] + r[i..], i + 1, m, par)
  {
    var f := [Tree(m, [])] + r;
    assert r[0..] == r && r[..0] == [] && f[1..] == r;
  }

  lemma RebuiltKids(ls: seq<Link>, ls': seq<Link>, f: seq<Tree>, g: seq<Tree>, k: nat, m: nat, par: int)
    requires Rebuilt(ls, ls', f, g, k, m, par) && Distinct(Pre(f))
    ensures m < |ls'| && Distinct(Pre(g[0].kids)) && m !in Pre(g[0].kids)
    ensures Seg(ls', g[0].kids, ls'[m].list, NULL, m)
    ensures forall x :: x in Pre(g[0].kids) ==> x in Pre(f[..k])
  {
    PreUnfold(g);
    RebuiltHead(ls, ls', f, g, k, m, par);
    PreUnfold(g[..1]);
  }

  lemma FlattenRebuilt(ls: seq<Link>, ls1: seq<Link>, ls2: seq<Link>, f: seq<Tree>, g: seq<Tree>, k: nat, m: nat,
                       par: int, kids: seq<Tree>)
    requires Rebuilt(ls, ls1, f, g, k, m, par) && Distinct(Pre(f)) && m < |ls1|
    requires |ls2| == |ls1| && ls2[m] == ls1[m] && Seg(ls2, kids, ls1[m].list, NULL, m)
    requires Pre(kids) == Pre(g[0].kids) && SameElsewhere(ls1, ls2, Pre(g[0].kids))
    ensures Rebuilt(ls, ls2, f, [Tree(m, kids)] + g[1..], k, m, par)
  {
    var g' := [Tree(m, kids)] + g[1..];
    RebuiltKids(ls, ls1, f, g, k, m, par);
    PreUnfold(g);
    assert g'[1..] == g[1..];
    PreUnfold(g');
    SegFrame(ls1, ls2, g[1..], ls1[m].next, NULL, par);
    ElsewhereTrans(ls, ls1, ls2, Pre(f[..k]), Pre(g[0].kids), Pre(f[..k]));
  }

  lemma BlockRebuilt(ls: seq<Link>, ls': seq<Link>, f: seq<Tree>, g: seq<Tree>, k: nat, m: nat, par: int,
                     kids: seq<Tree>)
    requires f != [] && Seg(ls, f, m, NULL, par) && Distinct(Pre(f)) && g == [Tree(m, kids)] + f[1..] && k == 1
    requires Sweeping(ls, ls', m, NULL, f[0].kids, |f[0].kids|, kids)
    ensures Rebuilt(ls, ls', f, g, k, m, par)
  {
    var was := f[0].kids;
    assert was[..|was|] == was;
    PreUnfold(f);
    assert g[1..] == f[1..];
    PreUnfold(g);
    PreUnfold(f[..1]);
    SegFrame(ls, ls', f[1..], ls[m].next, NULL, par);
    ElsewhereTrans(ls, ls, ls', [], Pre(was), Pre(f[..1]));
  }
}
